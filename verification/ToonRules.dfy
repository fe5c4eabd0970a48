/** What printed values look like: when text stands bare, how it is escaped, and how numerals are written. */
module ToonRules {
  import opened Prelude
  import opened ToolResults
  import opened ToonValue

  // ---- numerals

  predicate AllDigits(s: string) { forall i | 0 <= i < |s| :: s[i] in "0123456789" }

  function PowerOfTen(n: nat): nat { if n == 0 then 1 else 10 * PowerOfTen(n - 1) }

  /** The number a run of digits denotes, by position. */
  function Positional(s: string): int
    requires AllDigits(s)
  {
    if s == "" then 0
    else (s[0] as int - '0' as int) * PowerOfTen(|s| - 1) + Positional(s[1..])
  }

  lemma {:induction false} PositionalLast(s: string)
    requires AllDigits(s) && s != ""
    ensures var n := |s| - 1; Positional(s) == 10 * Positional(s[..n]) + (s[n] as int - '0' as int)
  {
    var n := |s| - 1;
    if n == 0 {
      assert s[1..] == "" && s[..0] == "";
    } else {
      PositionalLast(s[1..]);
      assert s[1..][..n - 1] == s[..n][1..];
      assert PowerOfTen(n) == 10 * PowerOfTen(n - 1);
      TenTimes(s[0] as int - '0' as int, PowerOfTen(n - 1));
    }
  }

  lemma TenTimes(d: int, p: int)
    ensures d * (10 * p) == 10 * (d * p)
  {
  }

  lemma DigitsLast(s: string)
    requires s != ""
    ensures var n := |s| - 1; AllDigits(s) <==> AllDigits(s[..n]) && IsDecimal(s[n])
  {
    var n := |s| - 1;
    assert IsDecimal(s[n]) <==> s[n] in "0123456789";
    assert forall i | 0 <= i < n :: s[..n][i] == s[i];
  }

  /** Reading a numeral succeeds exactly on a non-empty run of digits and gives its positional value. */
  lemma {:induction false} ReadDecimalIff(s: string)
    ensures ReadDecimal(s).Some? <==> s != "" && AllDigits(s)
    ensures s != "" && AllDigits(s) ==> ReadDecimal(s) == Some(Positional(s))
  {
    hide AllDigits;
    hide Positional;
    if s == "" {
    } else {
      var n := |s| - 1;
      DigitsLast(s);
      if AllDigits(s) { PositionalLast(s); }
      if n == 0 {
        NoDigits();
        assert s[..0] == "";
      } else {
        ReadDecimalIff(s[..n]);
      }
    }
  }

  lemma NoDigits()
    ensures AllDigits("") && Positional("") == 0
  {
  }

  /** Numerals are canonical: all digits, the right value, no leading zero. */
  lemma {:induction false} DecimalSays(n: nat)
    ensures var s := Decimal(n);
            s != "" && AllDigits(s) && Positional(s) == n && (s[0] == '0' <==> n == 0)
  {
    if n < 10 {
      assert Decimal(n)[1..] == "";
    } else {
      DecimalSays(n / 10);
      PositionalLast(Decimal(n));
      assert Decimal(n)[..|Decimal(n)| - 1] == Decimal(n / 10);
    }
  }

  /** An integer as the source's parser reads it: an optional sign, then digits. */
  predicate Numeral(s: string) {
    var digits := if s != "" && s[0] in "+-" then s[1..] else s;
    digits != "" && AllDigits(digits)
  }

  function Amount(s: string): int
    requires Numeral(s)
  {
    if s[0] == '-' then -Positional(s[1..])
    else if s[0] == '+' then Positional(s[1..])
    else Positional(s)
  }

  /** Text reads as an integer exactly if it is a numeral whose amount fits in 64 bits. */
  lemma ParsesIff(s: string)
    ensures ParseInteger(s).Some? <==>
            Numeral(s) && -0x8000_0000_0000_0000 <= Amount(s) < 0x8000_0000_0000_0000
    ensures ParseInteger(s).Some? ==> ParseInteger(s).value == Amount(s)
  {
    hide ReadDecimal;
    hide AllDigits;
    hide Positional;
    ReadDecimalIff(if s != "" && s[0] in "+-" then s[1..] else s);
  }

  // ---- bare and quoted text

  /** The characters text may hold and still stand bare. */
  predicate Plain(c: char) {
    var code := c as int;
    && !(code <= 0x20 || 0x7F <= code <= 0xA0)
    && code != 0x1680 && !(0x2000 <= code <= 0x200A)
    && code != 0x2028 && code != 0x2029 && code != 0x202F && code != 0x205F && code != 0x3000
    && c !in ",[]{}\"'#:\\"
  }

  lemma PlainIff(c: char)
    ensures Plain(c) <==> !NeedsQuotes(c)
  {
  }

  /** Nothing else reads like it, and no character of it means something else. */
  ghost predicate StandsBare(s: string, looksLikeFloat: string -> bool) {
    && s != "" && s != "null" && s != "true" && s != "false"
    && !(Numeral(s) && -0x8000_0000_0000_0000 <= Amount(s) < 0x8000_0000_0000_0000)
    && !looksLikeFloat(s)
    && forall i | 0 <= i < |s| :: Plain(s[i])
  }

  predicate InQuotes(t: string) { |t| >= 2 && t[0] == '\"' && t[|t| - 1] == '\"' }

  /** Text is printed as it is exactly when it stands bare; otherwise it is put in quotes. */
  lemma BareIff(s: string, looksLikeFloat: string -> bool)
    ensures RenderText(s, looksLikeFloat) == s <==> StandsBare(s, looksLikeFloat)
    ensures !StandsBare(s, looksLikeFloat) ==>
              RenderText(s, looksLikeFloat) == Quote(s) && InQuotes(RenderText(s, looksLikeFloat))
  {
    hide ParseInteger;
    hide Numeral;
    hide Amount;
    hide Plain;
    hide NeedsQuotes;
    hide Escape;
    ParsesIff(s);
    forall i | 0 <= i < |s|
      ensures Plain(s[i]) <==> !NeedsQuotes(s[i])
    {
      PlainIff(s[i]);
    }
    QuoteDiffers(s);
  }

  lemma {:induction false} EscapeGrows(s: string)
    ensures |Escape(s)| >= |s|
  {
    if s == "" {
    } else {
      EscapeGrows(s[1..]);
    }
  }

  lemma QuoteDiffers(s: string)
    ensures |Quote(s)| >= |s| + 2 && InQuotes(Quote(s))
  {
    hide Escape;
    EscapeGrows(s);
  }

  /** How one character is written between quotes. */
  ghost predicate WrittenAs(c: char, t: string) {
    if c in "\\\"" then t == ['\\', c]
    else if c == '\n' then t == "\\n"
    else if c == '\r' then t == "\\r"
    else if c == '\t' then t == "\\t"
    else if c as int < 0x20 || 0x7F <= c as int < 0xA0 then
      exists h :: t == "\\u{" + h + "}" && HexNumeral(h, c as int)
    else t == [c]
  }

  /** Lower-case hexadecimal without a leading zero. */
  predicate HexNumeral(h: string, n: nat) {
    if |h| == 1 then HexDigit(h[0]) == n
    else |h| == 2 && HexDigit(h[0]) > 0 && HexDigit(h[1]) >= 0 && 16 * HexDigit(h[0]) + HexDigit(h[1]) == n
  }

  function HexDigit(c: char): int {
    if c in "0123456789" then c as int - '0' as int else if c in "abcdef" then c as int - 'a' as int + 10 else -1
  }

  lemma EscapeSays(c: char)
    ensures WrittenAs(c, EscapeChar(c))
  {
    hide Hex;
    hide HexNumeral;
    if IsControl(c) && c !in "\n\r\t" { HexSays(c as int); }
  }

  lemma HexSays(n: nat)
    requires n < 0x100
    ensures HexNumeral(Hex(n), n)
  {
    hide DigitChar;
    hide HexDigit;
    DigitSays(n % 16);
    DigitSays(n / 16);
  }

  lemma DigitSays(d: nat)
    requires d < 16
    ensures HexDigit(DigitChar(d)) == d
  {
  }

  /** Quoted text is its characters in order, each written on its own. */
  lemma {:induction false} EscapeInOrder(s: string, t: string)
    ensures Escape(s + t) == Escape(s) + Escape(t)
    ensures |s| == 1 ==> Escape(s) == EscapeChar(s[0])
  {
    hide EscapeChar;
    if s == "" {
      assert s + t == t;
    } else {
      assert (s + t)[1..] == s[1..] + t;
      EscapeInOrder(s[1..], t);
    }
  }

  // ---- values

  /** Digits with the right value, a minus sign exactly if negative, no plus sign and no leading zero. */
  predicate PlainNumeral(t: string, i: int) {
    && Numeral(t) && Amount(t) == i && (t[0] == '-' <==> i < 0) && t[0] != '+'
    && (i != 0 ==> t[if i < 0 then 1 else 0] != '0')
  }

  /** Each kind of value: its words, numerals without leading zeros, and lists in brackets and commas. */
  lemma ValueSays(v: StructuredValue, looksLikeFloat: string -> bool)
    ensures var t := RenderValue(v, looksLikeFloat);
            match v
            case Null => t == "null"
            case Bool(b) => t == if b then "true" else "false"
            case Integer(i) => PlainNumeral(t, i)
            case Str(s) => t == if StandsBare(s, looksLikeFloat) then s else Quote(s)
            case StrList(items) => |t| >= 2 && t[0] == '[' && t[|t| - 1] == ']'
  {
    hide RenderItems;
    hide Numeral;
    hide StandsBare;
    hide RenderText;
    match v
    case Integer(i) => IntegerSays(i);
    case Str(s) => BareIff(s, looksLikeFloat);
    case _ =>
  }

  lemma IntegerSays(i: int)
    ensures PlainNumeral(RenderInteger(i), i)
  {
    DecimalSays(if i < 0 then -i else i);
    assert i < 0 ==> RenderInteger(i)[1..] == Decimal(-i);
  }

  /** A list adds a comma and the item for each further item. */
  lemma {:induction false} ListGrows(items: seq<string>, last: string, looksLikeFloat: string -> bool)
    ensures RenderItems(items + [last], looksLikeFloat) ==
            (if items == [] then "" else RenderItems(items, looksLikeFloat) + ",") + RenderText(last, looksLikeFloat)
    decreases |items|
  {
    hide RenderText;
    if items == [] {
    } else {
      ListGrows(items[1..], last, looksLikeFloat);
      assert (items + [last])[1..] == items[1..] + [last];
      assert (items + [last])[0] == items[0];
    }
  }
}
