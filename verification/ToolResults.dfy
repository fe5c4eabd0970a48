/** Tool results: the values tools return and the bookkeeping around them. */
module ToolResults {
  import opened Prelude
  import opened Utf8

  type I64 = i: int | -0x8000_0000_0000_0000 <= i < 0x8000_0000_0000_0000

  datatype StructuredValue =
    | Null
    | Bool(b: bool)
    | Integer(i: I64)
    | Str(s: string)
    | StrList(items: seq<string>)

  datatype ResultField = ResultField(key: string, value: StructuredValue)

  datatype TruncationMetadata = TruncationMetadata(originalBytes: nat, retainedBytes: nat, reason: string)

  datatype OutputRef = OutputRef(
    id: string, uri: string, mediaType: string, caption: Option<string>, digest: Option<string>)

  datatype RedactionMarker = RedactionMarker(fieldPath: string, reason: string, redactedAt: int)

  datatype ResultStatus = Succeeded | Failed | Canceled | TimedOut

  datatype ToolResult = ToolResult(
    id: string,
    schemaVersion: nat,
    invocationId: string,
    toolId: string,
    status: ResultStatus,
    schemaRef: Option<string>,
    fields: seq<ResultField>,
    evidenceRefs: seq<OutputRef>,
    outputRefs: seq<OutputRef>,
    truncation: Option<TruncationMetadata>,
    redactions: seq<RedactionMarker>)

  const U64_MAX := 0xFFFF_FFFF_FFFF_FFFF

  function SatAdd(a: nat, b: nat): nat {
    if a + b > U64_MAX then U64_MAX else a + b
  }

  function MergeTruncation(existing: Option<TruncationMetadata>, original: nat, retained: nat, reason: string)
    : TruncationMetadata
  {
    match existing
    case None => TruncationMetadata(original, retained, reason)
    case Some(e) =>
      TruncationMetadata(SatAdd(e.originalBytes, original), SatAdd(e.retainedBytes, retained), e.reason + "; " + reason)
  }

  /**
   * Merging a second report into what a result already carries: both byte counts add up, as far as 64 bits
   * reach, and the new reason follows the earlier ones.
   */
  lemma MergeSays(e: TruncationMetadata, original: nat, retained: nat, reason: string)
    ensures MergeTruncation(None, original, retained, reason) == TruncationMetadata(original, retained, reason)
    ensures var m := MergeTruncation(Some(e), original, retained, reason);
            var (all, kept) := (e.originalBytes + original, e.retainedBytes + retained);
            && (m.originalBytes == all <= U64_MAX || m.originalBytes == U64_MAX < all)
            && (m.retainedBytes == kept <= U64_MAX || m.retainedBytes == U64_MAX < kept)
            && |m.reason| == |e.reason| + 2 + |reason|
            && e.reason + "; " <= m.reason && m.reason[|e.reason| + 2..] == reason
  {
  }

  /** Lines joined by a newline. */
  function Join(items: seq<string>): string {
    if items == [] then "" else if |items| == 1 then items[0] else items[0] + "\n" + Join(items[1..])
  }

  /** A text cut at every newline. */
  function Lines(s: string): (r: seq<string>)
    ensures r != []
  {
    if s == "" then [""]
    else if s[0] == '\n' then [""] + Lines(s[1..])
    else
      var rest := Lines(s[1..]);
      [[s[0]] + rest[0]] + rest[1..]
  }

  lemma {:induction false} LinesOfFirst(line: string, rest: string)
    requires '\n' !in line
    ensures Lines(line) == [line]
    ensures Lines(line + "\n" + rest) == [line] + Lines(rest)
  {
    var all := line + "\n" + rest;
    if line == "" {
      assert all == "\n" + rest && all[1..] == rest;
    } else {
      LinesOfFirst(line[1..], rest);
      assert all[1..] == line[1..] + "\n" + rest;
      assert line == [line[0]] + line[1..];
    }
  }

  /** Joined lines can be taken apart again. */
  lemma {:induction false} LinesOfJoin(items: seq<string>)
    requires items != [] && forall i | 0 <= i < |items| :: '\n' !in items[i]
    ensures Lines(Join(items)) == items
  {
    if |items| == 1 {
      LinesOfFirst(items[0], "");
    } else {
      LinesOfFirst(items[0], Join(items[1..]));
      LinesOfJoin(items[1..]);
    }
  }

  /** The byte length of the joined lines. */
  function JoinedLen(items: seq<string>): (n: nat)
    ensures n == ByteLen(Join(items))
  {
    if items == [] then 0
    else if |items| == 1 then ByteLen(items[0])
    else
      ByteLenConcat(items[0] + "\n", Join(items[1..]));
      ByteLenConcat(items[0], "\n");
      ByteLen(items[0]) + 1 + JoinedLen(items[1..])
  }

  /** The size both truncation passes measure: absent for values that are never cut. */
  function FieldBytes(v: StructuredValue): Option<nat> {
    match v
    case Str(s) => Some(ByteLen(s))
    case StrList(items) => Some(JoinedLen(items))
    case _ => None
  }

  predicate Oversized(f: ResultField, max: nat) {
    FieldBytes(f.value).Some? && FieldBytes(f.value).value > max
  }

  /** Only texts and lists can be oversized, by the bytes of the text or of the joined lines. */
  lemma OversizedIff(f: ResultField, max: nat)
    ensures Oversized(f, max) <==>
            || (f.value.Str? && |Encode(f.value.s)| > max)
            || (f.value.StrList? && |Encode(Join(f.value.items))| > max)
  {
    hide Encode; hide ByteLen; hide Join;
  }

  // ---- the two ways the source computes the size of a list

  /** The runtime's measure: one pass, a separator after every line but the last. */
  method StringListByteLen(items: seq<string>) returns (bytes: nat)
    ensures bytes == if JoinedLen(items) > U64_MAX then U64_MAX else JoinedLen(items)
  {
    bytes := 0;
    for i := 0 to |items|
      invariant bytes == SatAdd(0, JoinedLen(items[..i]) + (if 0 < i < |items| then 1 else 0))
    {
      JoinedLenSnoc(items[..i], items[i]);
      assert items[..i + 1] == items[..i] + [items[i]];
      bytes := SatAdd(bytes, ByteLen(items[i]));
      if i + 1 < |items| {
        bytes := SatAdd(bytes, 1);
      }
    }
    assert items[..|items|] == items;
  }

  lemma {:induction false} JoinedLenSnoc(items: seq<string>, x: string)
    ensures JoinedLen(items + [x]) == JoinedLen(items) + ByteLen(x) + (if items == [] then 0 else 1)
  {
    if items == [] {
    } else {
      assert (items + [x])[1..] == items[1..] + [x];
      JoinedLenSnoc(items[1..], x);
    }
  }

  function SumLen(items: seq<string>): nat {
    if items == [] then 0 else ByteLen(items[0]) + SumLen(items[1..])
  }

  /** The renderer's measure: the lengths summed, plus one separator less than there are lines. */
  lemma {:induction false} RendererMeasureAgrees(items: seq<string>)
    ensures JoinedLen(items) == if items == [] then 0 else SumLen(items) + |items| - 1
  {
    if items == [] {
    } else {
      RendererMeasureAgrees(items[1..]);
    }
  }

  lemma {:induction false} SumLenNext(items: seq<string>, n: nat)
    requires n < |items|
    ensures SumLen(items[..n + 1]) == SumLen(items[..n]) + ByteLen(items[n])
  {
    hide ByteLen;
    if n == 0 {
      assert items[..1][1..] == [] && items[..0] == [];
    } else {
      SumLenNext(items[1..], n - 1);
      assert items[..n + 1][1..] == items[1..][..n] && items[..n][1..] == items[1..][..n - 1];
    }
  }

  /** The renderer's measure as it is computed: a sum, then the separators. */
  method SummedByteLen(items: seq<string>) returns (bytes: nat)
    ensures bytes == JoinedLen(items)
  {
    hide ByteLen;
    RendererMeasureAgrees(items);
    if items == [] { return 0; }
    var sum := 0;
    for i := 0 to |items|
      invariant sum == SumLen(items[..i])
    {
      SumLenNext(items, i);
      sum := sum + ByteLen(items[i]);
    }
    assert items[..|items|] == items;
    return sum + (|items| - 1);
  }
}
