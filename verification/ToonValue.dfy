/** Printing values in the TOON notation, and a decoder that recovers them. */
module ToonValue {
  import opened Prelude
  import opened ToolResults

  // ---- numerals

  function DigitChar(d: nat): char
    requires d < 16
  {
    if d < 10 then (d + '0' as int) as char else (d - 10 + 'a' as int) as char
  }

  function DigitValue(c: char): Option<nat> {
    if '0' <= c <= '9' then Some(c as int - '0' as int)
    else if 'a' <= c <= 'f' then Some(c as int - 'a' as int + 10)
    else None
  }

  lemma DigitRoundTrip(d: nat)
    requires d < 16
    ensures DigitValue(DigitChar(d)) == Some(d)
  {
  }

  predicate IsDecimal(c: char) {
    '0' <= c <= '9'
  }

  function Decimal(n: nat): (r: string)
    ensures r != "" && IsDecimal(r[0])
  {
    if n < 10 then [DigitChar(n)] else Decimal(n / 10) + [DigitChar(n % 10)]
  }

  /** The number a non-empty run of decimal digits denotes. */
  function ReadDecimal(s: string): Option<nat> {
    if s == "" || !IsDecimal(s[|s| - 1]) then None
    else
      var last := s[|s| - 1] as int - '0' as int;
      if |s| == 1 then Some(last)
      else match ReadDecimal(s[..|s| - 1])
           case None => None
           case Some(high) => Some(high * 10 + last)
  }

  lemma {:induction false} DecimalRoundTrip(n: nat)
    ensures ReadDecimal(Decimal(n)) == Some(n)
  {
    if n >= 10 {
      DecimalRoundTrip(n / 10);
      var s := Decimal(n);
      assert s[..|s| - 1] == Decimal(n / 10);
    }
  }

  function RenderInteger(i: int): string {
    if i < 0 then "-" + Decimal(-i) else Decimal(i)
  }

  /** Integer parsing as the source's standard library does it: an optional sign and decimal digits,
      within 64 bits. */
  function ParseInteger(s: string): Option<I64> {
    var signed := s != "" && (s[0] == '-' || s[0] == '+');
    match ReadDecimal(if signed then s[1..] else s)
    case None => None
    case Some(n) =>
      var i := if signed && s[0] == '-' then 0 - (n as int) else n as int;
      if -0x8000_0000_0000_0000 <= i < 0x8000_0000_0000_0000 then Some(i) else None
  }

  lemma IntegerRoundTrip(i: I64)
    ensures ParseInteger(RenderInteger(i)) == Some(i)
    ensures RenderInteger(i) != "" && (RenderInteger(i)[0] == '-' || IsDecimal(RenderInteger(i)[0]))
  {
    var n := if i < 0 then 0 - (i as int) else i as int;
    DecimalRoundTrip(n);
    assert ("-" + Decimal(n))[1..] == Decimal(n);
  }

  // ---- quoting

  predicate IsControl(c: char) {
    c as int < 0x20 || 0x7F <= c as int < 0xA0
  }

  predicate NeedsQuotes(c: char) {
    || IsControl(c) || IsWhitespace(c)
    || c == ',' || c == '[' || c == ']' || c == '{' || c == '}'
    || c == '\"' || c == '\'' || c == '#' || c == ':' || c == '\\'
  }

  /** Lower-case hexadecimal without leading zeros, for a code below 0x100. */
  function Hex(n: nat): string
    requires n < 0x100
  {
    if n < 16 then [DigitChar(n)] else [DigitChar(n / 16), DigitChar(n % 16)]
  }

  function EscapeChar(c: char): string {
    if c == '\\' then "\\\\"
    else if c == '\"' then "\\\""
    else if c == '\n' then "\\n"
    else if c == '\r' then "\\r"
    else if c == '\t' then "\\t"
    else if IsControl(c) then "\\u{" + Hex(c as int) + "}"
    else [c]
  }

  function Escape(s: string): string {
    if s == "" then "" else EscapeChar(s[0]) + Escape(s[1..])
  }

  function Quote(s: string): string {
    "\"" + Escape(s) + "\""
  }

  /** Quoting as the source does it, pushing onto a buffer character by character. */
  method QuoteString(value: string) returns (quoted: string)
    ensures quoted == Quote(value)
  {
    hide EscapeChar;
    quoted := "\"";
    for i := 0 to |value|
      invariant quoted + Escape(value[i..]) == "\"" + Escape(value)
    {
      assert value[i..][1..] == value[i + 1..];
      assert quoted + Escape(value[i..]) == (quoted + EscapeChar(value[i])) + Escape(value[i + 1..]);
      quoted := quoted + EscapeChar(value[i]);
    }
    quoted := quoted + "\"";
  }

  /** Text that would read back as something other than itself. `looksLikeFloat` is whatever the
      source's float parser accepts. */
  predicate IsLiteral(s: string, looksLikeFloat: string -> bool) {
    s in ["null", "true", "false"] || ParseInteger(s).Some? || looksLikeFloat(s)
  }

  function RenderText(s: string, looksLikeFloat: string -> bool): string {
    if s == "" || IsLiteral(s, looksLikeFloat) || exists i | 0 <= i < |s| :: NeedsQuotes(s[i]) then Quote(s) else s
  }

  function RenderItems(items: seq<string>, looksLikeFloat: string -> bool): string {
    if items == [] then ""
    else if |items| == 1 then RenderText(items[0], looksLikeFloat)
    else RenderText(items[0], looksLikeFloat) + "," + RenderItems(items[1..], looksLikeFloat)
  }

  function RenderValue(v: StructuredValue, looksLikeFloat: string -> bool): string {
    match v
    case Null => "null"
    case Bool(b) => if b then "true" else "false"
    case Integer(i) => RenderInteger(i)
    case Str(s) => RenderText(s, looksLikeFloat)
    case StrList(items) => "[" + RenderItems(items, looksLikeFloat) + "]"
  }

  function RenderOptional(o: Option<string>, looksLikeFloat: string -> bool): string {
    if o.Some? then RenderText(o.value, looksLikeFloat) else "null"
  }

  // ---- decoding

  datatype Parsed = Parsed(text: string, rest: string)

  /** The hexadecimal digits up to a closing brace. */
  function ReadHex(t: string, sofar: nat): Option<(nat, string)> {
    if t == "" then None
    else if t[0] == '}' then Some((sofar, t[1..]))
    else match DigitValue(t[0])
         case None => None
         case Some(d) => ReadHex(t[1..], sofar * 16 + d)
  }

  /** One possibly escaped character. */
  function ReadChar(t: string): (r: Option<(char, string)>)
    ensures r.Some? ==> |r.value.1| < |t|
  {
    if t == "" then None
    else if t[0] != '\\' then Some((t[0], t[1..]))
    else if |t| < 2 then None
    else if t[1] == '\\' then Some(('\\', t[2..]))
    else if t[1] == '\"' then Some(('\"', t[2..]))
    else if t[1] == 'n' then Some(('\n', t[2..]))
    else if t[1] == 'r' then Some(('\r', t[2..]))
    else if t[1] == 't' then Some(('\t', t[2..]))
    else if t[1] == 'u' && |t| > 2 && t[2] == '{' then
      var hex := ReadHex(t[3..], 0);
      if hex.Some? && hex.value.0 < 0xD800 && |hex.value.1| < |t| then
        Some((hex.value.0 as char, hex.value.1))
      else None
    else None
  }

  /** The rest of a quoted text, after its opening quote. */
  function ReadQuoted(t: string): Option<Parsed>
    decreases |t|
  {
    if t == "" then None
    else if t[0] == '\"' then Some(Parsed("", t[1..]))
    else match ReadChar(t)
         case None => None
         case Some((c, rest)) =>
           match ReadQuoted(rest)
           case None => None
           case Some(p) => Some(Parsed([c] + p.text, p.rest))
  }

  /** The length of the bare text at the front, which ends at a comma or a bracket. */
  function BareLen(t: string): (n: nat)
    ensures n <= |t|
  {
    if t == "" || t[0] == ',' || t[0] == ']' then 0 else 1 + BareLen(t[1..])
  }

  function ReadText(t: string): Option<Parsed> {
    if t != "" && t[0] == '\"' then ReadQuoted(t[1..])
    else if BareLen(t) == 0 then None
    else Some(Parsed(t[..BareLen(t)], t[BareLen(t)..]))
  }

  /** One or more items and the closing bracket. */
  function ReadItems(t: string): Option<seq<string>>
    decreases |t|
  {
    match ReadText(t)
    case None => None
    case Some(p) =>
      if p.rest == "]" then Some([p.text])
      else if p.rest == "" || p.rest[0] != ',' || |p.rest| > |t| then None
      else match ReadItems(p.rest[1..])
           case None => None
           case Some(items) => Some([p.text] + items)
  }

  function DecodeValue(t: string): Option<StructuredValue> {
    if t == "null" then Some(Null)
    else if t == "true" then Some(Bool(true))
    else if t == "false" then Some(Bool(false))
    else if t == "[]" then Some(StrList([]))
    else if t != "" && t[0] == '[' then
      match ReadItems(t[1..]) case None => None case Some(items) => Some(StrList(items))
    else if t != "" && t[0] != '\"' && ParseInteger(t).Some? then Some(Integer(ParseInteger(t).value))
    else match ReadText(t)
         case Some(p) => if p.rest == "" then Some(Str(p.text)) else None
         case None => None
  }

  // ---- decoding undoes printing

  lemma CharRoundTrip(c: char, rest: string)
    ensures ReadChar(EscapeChar(c) + rest) == Some((c, rest))
    ensures EscapeChar(c) != "" && EscapeChar(c)[0] != '\"'
  {
    hide ReadHex; hide Hex;
    var t := EscapeChar(c) + rest;
    if c == '\\' || c == '\"' || c == '\n' || c == '\r' || c == '\t' {
      assert |EscapeChar(c)| == 2 && t[2..] == rest;
    } else if IsControl(c) {
      HexRoundTrip(c as int, rest);
      assert t[3..] == Hex(c as int) + ("}" + rest);
    } else {
      assert t[1..] == rest;
    }
  }

  lemma HexRoundTrip(n: nat, rest: string)
    requires n < 0x100
    ensures ReadHex(Hex(n) + ("}" + rest), 0) == Some((n, rest))
  {
    hide DigitChar; hide DigitValue;
    var tail := "}" + rest;
    assert tail[1..] == rest;
    DigitRoundTrip(n % 16);
    assert DigitChar(n % 16) != '}' by { DigitIsNotBrace(n % 16); }
    if n < 16 {
      assert (Hex(n) + tail)[1..] == tail;
    } else {
      DigitRoundTrip(n / 16);
      assert DigitChar(n / 16) != '}' by { DigitIsNotBrace(n / 16); }
      var t := Hex(n) + tail;
      assert t[1..] == [DigitChar(n % 16)] + tail;
      assert t[1..][1..] == tail;
      assert ReadHex(t, 0) == ReadHex(t[1..], n / 16) == ReadHex(t[1..][1..], n);
    }
  }

  lemma DigitIsNotBrace(d: nat)
    requires d < 16
    ensures DigitChar(d) != '}'
  {
  }

  lemma {:induction false} QuotedRoundTrip(s: string, rest: string)
    ensures ReadQuoted(Escape(s) + "\"" + rest) == Some(Parsed(s, rest))
  {
    hide EscapeChar; hide ReadChar;
    var t := Escape(s) + "\"" + rest;
    if s == "" {
      assert t[1..] == rest;
    } else {
      var tail := Escape(s[1..]) + "\"" + rest;
      assert t == EscapeChar(s[0]) + tail;
      CharRoundTrip(s[0], tail);
      QuotedRoundTrip(s[1..], rest);
      assert s == [s[0]] + s[1..];
    }
  }

  predicate Stops(rest: string) {
    rest == "" || rest[0] == ',' || rest[0] == ']'
  }

  lemma {:induction false} BareLenStops(s: string, rest: string)
    requires Stops(rest)
    requires forall i | 0 <= i < |s| :: s[i] != ',' && s[i] != ']'
    ensures BareLen(s + rest) == |s|
  {
    if s == "" {
      assert s + rest == rest;
    } else {
      assert (s + rest)[1..] == s[1..] + rest;
      BareLenStops(s[1..], rest);
    }
  }

  lemma TextRoundTrip(s: string, looksLikeFloat: string -> bool, rest: string)
    requires Stops(rest)
    ensures ReadText(RenderText(s, looksLikeFloat) + rest) == Some(Parsed(s, rest))
  {
    hide Escape; hide ReadQuoted; hide IsLiteral; hide IsControl; hide IsWhitespace; hide BareLen;
    var t := RenderText(s, looksLikeFloat) + rest;
    if RenderText(s, looksLikeFloat) == Quote(s) {
      QuotedRoundTrip(s, rest);
      assert t[1..] == Escape(s) + "\"" + rest;
    } else {
      forall i | 0 <= i < |s|
        ensures s[i] != ',' && s[i] != ']' && s[i] != '\"'
      {
        assert !NeedsQuotes(s[i]);
      }
      BareLenStops(s, rest);
      assert t[0] == s[0] && t[..|s|] == s && t[|s|..] == rest;
    }
  }

  lemma TextIsNotEmpty(s: string, looksLikeFloat: string -> bool)
    ensures RenderText(s, looksLikeFloat) != ""
  {
  }

  lemma ReadItemsStep(t: string, head: string, rest: string, items: seq<string>)
    requires ReadText(t) == Some(Parsed(head, rest))
    requires 1 < |rest| <= |t| && rest[0] == ',' && ReadItems(rest[1..]) == Some(items)
    ensures ReadItems(t) == Some([head] + items)
  {
    hide ReadText;
  }

  lemma Regroup(a: string, b: string, c: string, d: string)
    ensures a + b + c + d == a + (b + (c + d))
    ensures b != "" ==> (b + (c + d))[0] == b[0]
    ensures |b| == 1 ==> (b + (c + d))[1..] == c + d
  {
  }

  lemma {:induction false} ItemsRoundTrip(items: seq<string>, looksLikeFloat: string -> bool)
    requires items != []
    ensures ReadItems(RenderItems(items, looksLikeFloat) + "]") == Some(items)
    ensures RenderItems(items, looksLikeFloat) != ""
    decreases |items|
  {
    hide RenderText; hide ReadText;
    TextIsNotEmpty(items[0], looksLikeFloat);
    if |items| == 1 {
      TextRoundTrip(items[0], looksLikeFloat, "]");
      assert items == [items[0]];
    } else {
      hide ReadItems;
      var head := RenderText(items[0], looksLikeFloat);
      var tail := RenderItems(items[1..], looksLikeFloat);
      var rest := "," + (tail + "]");
      Regroup(head, ",", tail, "]");
      ItemsRoundTrip(items[1..], looksLikeFloat);
      TextRoundTrip(items[0], looksLikeFloat, rest);
      ReadItemsStep(head + rest, items[0], rest, items[1..]);
      assert items == [items[0]] + items[1..];
    }
  }

  lemma StringRoundTrip(s: string, looksLikeFloat: string -> bool)
    ensures DecodeValue(RenderText(s, looksLikeFloat)) == Some(Str(s))
  {
    hide ReadItems; hide ReadText; hide Escape; hide IsWhitespace; hide IsControl; hide ReadDecimal; hide ParseInteger;
    var t := RenderText(s, looksLikeFloat);
    TextRoundTrip(s, looksLikeFloat, "");
    assert t + "" == t;
    if s == "" || IsLiteral(s, looksLikeFloat) || exists i | 0 <= i < |s| :: NeedsQuotes(s[i]) {
      assert t[0] == '\"';
    } else {
      assert t == s && !NeedsQuotes(s[0]) && !IsLiteral(s, looksLikeFloat);
    }
  }

  lemma Bracketed(x: string)
    requires x != ""
    ensures var t := "[" + x + "]"; |t| > 2 && t[0] == '[' && t[1..] == x + "]"
  {
  }

  lemma ListRoundTrip(items: seq<string>, looksLikeFloat: string -> bool)
    ensures DecodeValue("[" + RenderItems(items, looksLikeFloat) + "]") == Some(StrList(items))
  {
    hide ReadItems;
    var t := "[" + RenderItems(items, looksLikeFloat) + "]";
    if items == [] {
      assert t == "[]";
    } else {
      hide RenderItems;
      ItemsRoundTrip(items, looksLikeFloat);
      Bracketed(RenderItems(items, looksLikeFloat));
    }
  }

  /** Printing then decoding is the identity on every value, whatever counts as float-like text. */
  lemma ValueRoundTrip(v: StructuredValue, looksLikeFloat: string -> bool)
    ensures DecodeValue(RenderValue(v, looksLikeFloat)) == Some(v)
  {
    hide RenderItems; hide ReadItems; hide RenderText; hide ReadText; hide RenderInteger; hide ParseInteger;
    match v
    case Null =>
    case Bool(_) =>
    case Integer(i) => IntegerRoundTrip(i);
    case Str(s) => StringRoundTrip(s, looksLikeFloat);
    case StrList(items) => ListRoundTrip(items, looksLikeFloat);
  }

  /** Distinct values never print alike. */
  lemma RenderingIsInjective(v: StructuredValue, w: StructuredValue, f: string -> bool, g: string -> bool)
    requires RenderValue(v, f) == RenderValue(w, g)
    ensures v == w
  {
    ValueRoundTrip(v, f);
    ValueRoundTrip(w, g);
  }

  // ---- rows of the fields section

  function RenderRow(f: ResultField, looksLikeFloat: string -> bool): string {
    "  " + RenderText(f.key, looksLikeFloat) + "," + RenderValue(f.value, looksLikeFloat)
  }

  function FieldsHeader(n: nat): string {
    "fields[" + Decimal(n) + "]{key,value}"
  }

  /** The fields section: a header with the number of fields, then one row per field. */
  function FieldsSection(fields: seq<ResultField>, looksLikeFloat: string -> bool): seq<string> {
    if fields == [] then []
    else [FieldsHeader(|fields|)] +
         seq(|fields|, i requires 0 <= i < |fields| => RenderRow(fields[i], looksLikeFloat))
  }

  function DecodeRow(row: string): Option<ResultField> {
    if |row| < 2 || row[..2] != "  " then None
    else match ReadText(row[2..])
         case None => None
         case Some(p) =>
           if p.rest == "" || p.rest[0] != ',' then None
           else match DecodeValue(p.rest[1..])
                case None => None
                case Some(v) => Some(ResultField(p.text, v))
  }

  function DecodeRows(rows: seq<string>): Option<seq<ResultField>> {
    if rows == [] then Some([])
    else match (DecodeRow(rows[0]), DecodeRows(rows[1..]))
         case (Some(f), Some(fields)) => Some([f] + fields)
         case _ => None
  }

  function DecodeFields(lines: seq<string>): Option<seq<ResultField>> {
    if lines == [] then Some([])
    else if lines[0] != FieldsHeader(|lines| - 1) then None
    else DecodeRows(lines[1..])
  }

  lemma RowRoundTrip(f: ResultField, looksLikeFloat: string -> bool)
    ensures DecodeRow(RenderRow(f, looksLikeFloat)) == Some(f)
  {
    hide RenderText; hide RenderValue; hide ReadText; hide DecodeValue;
    var row := RenderRow(f, looksLikeFloat);
    var rest := "," + RenderValue(f.value, looksLikeFloat);
    assert row[2..] == RenderText(f.key, looksLikeFloat) + rest;
    TextRoundTrip(f.key, looksLikeFloat, rest);
    assert rest[1..] == RenderValue(f.value, looksLikeFloat);
    ValueRoundTrip(f.value, looksLikeFloat);
  }

  lemma {:induction false} RowsRoundTrip(fields: seq<ResultField>, rows: seq<string>, looksLikeFloat: string -> bool)
    requires |rows| == |fields|
    requires forall i | 0 <= i < |fields| :: rows[i] == RenderRow(fields[i], looksLikeFloat)
    ensures DecodeRows(rows) == Some(fields)
    decreases |fields|
  {
    hide RenderRow; hide DecodeRow;
    if fields == [] {
    } else {
      RowRoundTrip(fields[0], looksLikeFloat);
      RowsRoundTrip(fields[1..], rows[1..], looksLikeFloat);
      assert fields == [fields[0]] + fields[1..];
    }
  }

  /** The printed fields section determines the fields: every key and every typed value. */
  lemma FieldsRoundTrip(fields: seq<ResultField>, looksLikeFloat: string -> bool)
    ensures DecodeFields(FieldsSection(fields, looksLikeFloat)) == Some(fields)
  {
    hide RenderRow; hide FieldsHeader; hide DecodeRows;
    if fields == [] {
      assert DecodeFields([]) == Some([]);
    } else {
      var lines := FieldsSection(fields, looksLikeFloat);
      var rows := seq(|fields|, i requires 0 <= i < |fields| => RenderRow(fields[i], looksLikeFloat));
      assert lines[1..] == rows && |lines| - 1 == |fields|;
      RowsRoundTrip(fields, rows, looksLikeFloat);
    }
  }

  // ---- printed text stays on one line

  lemma {:induction false} EscapeOnOneLine(s: string)
    ensures '\n' !in Escape(s)
  {
    if s == "" {
    } else {
      EscapeOnOneLine(s[1..]);
      assert '\n' !in EscapeChar(s[0]) by { CharOnOneLine(s[0]); }
    }
  }

  lemma CharOnOneLine(c: char)
    ensures '\n' !in EscapeChar(c)
  {
    if IsControl(c) {
      assert forall d: nat | d < 16 :: DigitChar(d) != '\n';
    }
  }

  lemma TextOnOneLine(s: string, looksLikeFloat: string -> bool)
    ensures '\n' !in RenderText(s, looksLikeFloat)
  {
    hide IsLiteral; hide Escape;
    EscapeOnOneLine(s);
    if '\n' in s {
      var i :| 0 <= i < |s| && s[i] == '\n';
      assert NeedsQuotes(s[i]);
    }
  }

  lemma {:induction false} DecimalOnOneLine(n: nat)
    ensures '\n' !in Decimal(n)
  {
    if n >= 10 { DecimalOnOneLine(n / 10); }
  }

  lemma IntegerOnOneLine(i: int)
    ensures '\n' !in RenderInteger(i)
  {
    DecimalOnOneLine(if i < 0 then -i else i);
  }

  lemma {:induction false} ItemsOnOneLine(items: seq<string>, looksLikeFloat: string -> bool)
    ensures '\n' !in RenderItems(items, looksLikeFloat)
  {
    hide RenderText;
    if items == [] {
    } else {
      TextOnOneLine(items[0], looksLikeFloat);
      ItemsOnOneLine(items[1..], looksLikeFloat);
    }
  }

  lemma RowOnOneLine(f: ResultField, looksLikeFloat: string -> bool)
    ensures '\n' !in RenderRow(f, looksLikeFloat)
  {
    hide RenderText; hide RenderItems; hide RenderInteger;
    TextOnOneLine(f.key, looksLikeFloat);
    match f.value
    case Integer(i) => IntegerOnOneLine(i);
    case Str(s) => TextOnOneLine(s, looksLikeFloat);
    case StrList(items) => ItemsOnOneLine(items, looksLikeFloat);
    case _ =>
  }
}
