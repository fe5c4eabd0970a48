/** UTF-8 (section 3 of RFC 3629): encoding, character boundaries, and the longest prefix of a text
    that fits a byte budget. */
module Utf8 {
  import opened Prelude

  type Byte = n: int | 0 <= n < 256

  function CharLen(c: char): (n: nat)
    ensures 1 <= n <= 4
  {
    var code := c as int;
    if code < 0x80 then 1 else if code < 0x800 then 2 else if code < 0x1_0000 then 3 else 4
  }

  /** The bytes 10xxxxxx, which only ever follow a leading byte. */
  predicate IsContinuation(b: Byte) {
    0x80 <= b < 0xC0
  }

  function EncodeChar(c: char): (r: seq<Byte>)
    ensures |r| == CharLen(c)
    ensures !IsContinuation(r[0])
    ensures forall i | 0 < i < |r| :: IsContinuation(r[i])
  {
    var n := c as int;
    if n < 0x80 then [n]
    else if n < 0x800 then [0xC0 + n / 0x40, 0x80 + n % 0x40]
    else if n < 0x1_0000 then [0xE0 + n / 0x1000, 0x80 + n / 0x40 % 0x40, 0x80 + n % 0x40]
    else [0xF0 + n / 0x4_0000, 0x80 + n / 0x1000 % 0x40, 0x80 + n / 0x40 % 0x40, 0x80 + n % 0x40]
  }

  function Encode(s: string): (r: seq<Byte>)
    ensures |r| == ByteLen(s)
  {
    if s == "" then [] else EncodeChar(s[0]) + Encode(s[1..])
  }

  /** The length of a text in bytes. */
  function ByteLen(s: string): nat {
    if s == "" then 0 else CharLen(s[0]) + ByteLen(s[1..])
  }

  predicate IsCharBoundary(bytes: seq<Byte>, i: nat) {
    i == 0 || i == |bytes| || (i < |bytes| && !IsContinuation(bytes[i]))
  }

  lemma EmptyIffZero(s: string)
    ensures ByteLen(s) == 0 <==> s == ""
  {
  }

  lemma {:induction false} ByteLenConcat(s: string, t: string)
    ensures ByteLen(s + t) == ByteLen(s) + ByteLen(t)
  {
    if s == "" {
      assert s + t == t;
    } else {
      assert (s + t)[1..] == s[1..] + t;
      ByteLenConcat(s[1..], t);
    }
  }

  lemma {:induction false} EncodeConcat(s: string, t: string)
    ensures Encode(s + t) == Encode(s) + Encode(t)
  {
    if s == "" {
      assert s + t == t;
    } else {
      assert (s + t)[1..] == s[1..] + t;
      EncodeConcat(s[1..], t);
    }
  }

  // ---- the longest prefix within a budget

  /** How many characters of `s` fit in `n` bytes. */
  function Fit(s: string, n: nat): (k: nat)
    ensures k <= |s|
  {
    if s == "" || CharLen(s[0]) > n then 0 else 1 + Fit(s[1..], n - CharLen(s[0]))
  }

  function Prefix(s: string, n: nat): string {
    s[..Fit(s, n)]
  }

  /** `Prefix` is within the budget, no longer prefix is, and a cut wastes at most three bytes. */
  lemma {:induction false} PrefixIsLongest(s: string, n: nat)
    ensures ByteLen(Prefix(s, n)) <= n
    ensures Prefix(s, n) == s <==> ByteLen(s) <= n
    ensures forall k | Fit(s, n) < k <= |s| :: ByteLen(s[..k]) > n
    ensures ByteLen(s) > n ==> n - ByteLen(Prefix(s, n)) <= 3
  {
    if s == "" {
    } else if CharLen(s[0]) > n {
      forall k | 0 < k <= |s|
        ensures ByteLen(s[..k]) > n
      {
        assert s[..k][0] == s[0];
      }
      assert s[..|s|] == s;
    } else {
      var m := n - CharLen(s[0]);
      PrefixIsLongest(s[1..], m);
      assert Prefix(s, n) == [s[0]] + Prefix(s[1..], m);
      forall k | Fit(s, n) < k <= |s|
        ensures ByteLen(s[..k]) > n
      {
        assert s[..k] == [s[0]] + s[1..][..k - 1];
      }
    }
  }

  // ---- boundaries are exactly the ends of prefixes

  lemma {:induction false} PrefixEndsAtBoundary(s: string, k: nat)
    requires k <= |s|
    ensures ByteLen(s[..k]) <= |Encode(s)|
    ensures IsCharBoundary(Encode(s), ByteLen(s[..k]))
    ensures Encode(s)[..ByteLen(s[..k])] == Encode(s[..k])
  {
    assert s == s[..k] + s[k..];
    EncodeConcat(s[..k], s[k..]);
    if k < |s| {
      assert Encode(s)[ByteLen(s[..k])] == Encode(s[k..])[0] == EncodeChar(s[k])[0];
    }
  }

  lemma {:induction false} BoundaryEndsPrefix(s: string, i: nat)
    requires i <= |Encode(s)| && IsCharBoundary(Encode(s), i)
    ensures ByteLen(Prefix(s, i)) == i
  {
    if s != "" && i > 0 {
      var n := CharLen(s[0]);
      assert i >= n by {
        assert forall j | 0 < j < n :: Encode(s)[j] == EncodeChar(s[0])[j];
      }
      assert i < |Encode(s)| ==> Encode(s)[i] == Encode(s[1..])[i - n];
      BoundaryEndsPrefix(s[1..], i - n);
      assert Prefix(s, i) == [s[0]] + Prefix(s[1..], i - n);
    }
  }

  /** Cuts a text at a byte offset, backing up to the nearest character boundary. */
  method TruncateStringValue(value: string, max: nat) returns (r: Option<string>)
    ensures r == if ByteLen(value) <= max then None else Some(Prefix(value, max))
  {
    var bytes := Encode(value);
    if |bytes| <= max {
      return None;
    }
    var end := max;
    PrefixIsLongest(value, max);
    PrefixEndsAtBoundary(value, Fit(value, max));
    while end > 0 && !IsCharBoundary(bytes, end)
      invariant ByteLen(Prefix(value, max)) <= end <= max
    {
      end := end - 1;
    }
    BoundaryEndsPrefix(value, end);
    SameLengthPrefix(value, end, max);
    return Some(SliceTo(value, end));
  }

  /** The text whose encoding is the first `end` bytes of the value's encoding. */
  function SliceTo(value: string, end: nat): (r: string)
    requires end <= |Encode(value)| && IsCharBoundary(Encode(value), end)
    ensures Encode(r) == Encode(value)[..end]
  {
    BoundaryEndsPrefix(value, end);
    PrefixEndsAtBoundary(value, Fit(value, end));
    Prefix(value, end)
  }

  lemma SameLengthPrefix(value: string, end: nat, max: nat)
    requires end <= max && ByteLen(Prefix(value, end)) == end >= ByteLen(Prefix(value, max))
    ensures Prefix(value, end) == Prefix(value, max)
  {
    PrefixIsLongest(value, max);
    PrefixIsLongest(value, end);
  }

  /** Finds the same cut by walking forward over the characters. */
  method ForwardCut(value: string, remaining: nat) returns (end: nat)
    ensures end == ByteLen(Prefix(value, remaining))
  {
    var offset := 0;
    end := 0;
    for k := 0 to |value|
      invariant end == offset == ByteLen(value[..k]) <= remaining
      invariant k + Fit(value[k..], remaining - offset) == Fit(value, remaining)
    {
      var next := offset + CharLen(value[k]);
      if next > remaining {
        return;
      }
      assert value[..k + 1] == value[..k] + [value[k]];
      ByteLenConcat(value[..k], [value[k]]);
      assert value[k..][1..] == value[k + 1..];
      offset := next;
      end := next;
    }
    assert value[..|value|] == value;
  }

  // ---- decoding

  /** The six bits a continuation byte carries. */
  function Low(b: Byte): int { (b as int) - 0x80 }

  /** The code point at the front of a byte string and how many bytes it takes, by the leading byte. */
  function DecodeCode(bytes: seq<Byte>): (r: Option<(int, nat)>)
    ensures r.Some? ==> 1 <= r.value.1 <= |bytes| && r.value.0 >= 0
  {
    if bytes == [] then None
    else
      var lead: int := bytes[0];
      if lead < 0x80 then Some((lead, 1))
      else if 0xC0 <= lead < 0xE0 && |bytes| >= 2 && IsContinuation(bytes[1]) then
        Some(((lead - 0xC0) * 0x40 + Low(bytes[1]), 2))
      else if 0xE0 <= lead < 0xF0 && |bytes| >= 3 && IsContinuation(bytes[1]) && IsContinuation(bytes[2]) then
        Some(((lead - 0xE0) * 0x1000 + Low(bytes[1]) * 0x40 + Low(bytes[2]), 3))
      else if 0xF0 <= lead && |bytes| >= 4 && IsContinuation(bytes[1]) && IsContinuation(bytes[2]) &&
              IsContinuation(bytes[3]) then
        Some(((lead - 0xF0) * 0x4_0000 + Low(bytes[1]) * 0x1000 + Low(bytes[2]) * 0x40 + Low(bytes[3]), 4))
      else None
  }

  /** The text a byte string encodes, if it encodes one. */
  function Decode(bytes: seq<Byte>): Option<string>
    decreases |bytes|
  {
    if bytes == [] then Some("")
    else
      match DecodeCode(bytes)
      case None => None
      case Some((code, n)) =>
        if !(code < 0xD800 || 0xE000 <= code < 0x11_0000) then None
        else
          match Decode(bytes[n..])
          case None => None
          case Some(rest) => Some([code as char] + rest)
  }

  lemma CharDecodes(c: char, rest: seq<Byte>)
    ensures DecodeCode(EncodeChar(c) + rest) == Some((c as int, CharLen(c)))
  {
    var n := c as int;
    var bytes := EncodeChar(c) + rest;
    assert forall i | 0 <= i < CharLen(c) :: bytes[i] == EncodeChar(c)[i];
    assert n / 0x1000 == n / 0x40 / 0x40 && n / 0x4_0000 == n / 0x1000 / 0x40;
  }

  /** Every text is recovered from its bytes. */
  lemma {:induction false} EncodingRoundTrip(s: string)
    ensures Decode(Encode(s)) == Some(s)
  {
    if s == "" {
    } else {
      hide EncodeChar; hide DecodeCode;
      CharDecodes(s[0], Encode(s[1..]));
      EncodingRoundTrip(s[1..]);
      assert Encode(s)[CharLen(s[0])..] == Encode(s[1..]);
      assert s == [s[0]] + s[1..];
    }
  }

  lemma EncodingIsInjective(s: string, t: string)
    requires Encode(s) == Encode(t)
    ensures s == t
  {
    hide Encode; hide Decode;
    EncodingRoundTrip(s);
    EncodingRoundTrip(t);
  }
}
