/** Small vocabulary shared by every component: optional values, results and the
    whitespace trimming that the registry and the settings service rely on. */
module Prelude {

  datatype Option<+T> = None | Some(value: T)

  datatype Result<+T, +E> = Ok(value: T) | Err(error: E)

  /** Unicode White_Space, the set behind the source's `trim` and `is_whitespace`. */
  predicate IsWhitespace(c: char) {
    var n := c as int;
    || 0x9 <= n <= 0xD || n == 0x20 || n == 0x85 || n == 0xA0 || n == 0x1680
    || 0x2000 <= n <= 0x200A || n == 0x2028 || n == 0x2029 || n == 0x202F || n == 0x205F || n == 0x3000
  }

  function TrimStart(s: string): (r: string)
    ensures r == "" || !IsWhitespace(r[0])
    ensures s == "" || IsWhitespace(s[0]) || r == s
  {
    if s != "" && IsWhitespace(s[0]) then TrimStart(s[1..]) else s
  }

  function TrimEnd(s: string): (r: string)
    ensures r <= s
    ensures r == "" || !IsWhitespace(r[|r| - 1])
    ensures s == "" || IsWhitespace(s[|s| - 1]) || r == s
    ensures s != "" && !IsWhitespace(s[0]) ==> r != ""
  {
    if s != "" && IsWhitespace(s[|s| - 1]) then TrimEnd(s[..|s| - 1]) else s
  }

  function Trim(s: string): string {
    TrimEnd(TrimStart(s))
  }

  lemma TrimIdempotent(s: string)
    ensures Trim(Trim(s)) == Trim(s)
  {
    var t := Trim(s);
    if t != "" {
      assert t[0] == TrimStart(s)[0];
    }
  }

  /** Text that neither starts nor ends with whitespace is left alone; one leading blank is dropped. */
  lemma TrimKeeps(s: string)
    requires s != "" && !IsWhitespace(s[0]) && !IsWhitespace(s[|s| - 1])
    ensures Trim(s) == s && Trim(" " + s) == s
  {
    var padded := " " + s;
    assert padded[1..] == s;
    assert TrimStart(padded) == TrimStart(s) == s;
  }
}
