/** `json.dumps` of a flat dictionary, with the default separators ", " and ": " and the
    default `ensure_ascii`, which escapes every character outside space..tilde. */
module Json {
  import opened Text

  /** The values an audit record's details hold. */
  datatype Json = JNull | JBool(b: bool) | JInt(i: int) | JStr(s: string)

  /** A dictionary in insertion order. */
  type Dict = seq<(string, Json)>

  function HexDigit(d: nat): (c: char)
    requires d < 16
    ensures ' ' <= c <= '~'
  {
    "0123456789abcdef"[d]
  }

  /** Four lower-case hexadecimal digits. */
  function Hex4(n: nat): (s: string)
    requires n < 0x1_0000
    ensures |s| == 4 && Printable(s)
  {
    [HexDigit(n / 0x1000), HexDigit(n / 0x100 % 0x10), HexDigit(n / 0x10 % 0x10), HexDigit(n % 0x10)]
  }

  /** The escape of one character: the short escapes, the character itself when it is printable
      ASCII, otherwise `\uXXXX`, as a surrogate pair above U+FFFF. */
  function EscapeChar(c: char): (r: string)
    ensures |r| > 0 && Printable(r)
    ensures ' ' <= c <= '~' && c != '"' && c != '\\' ==> r == [c]
  {
    if c == '"' then "\\\""
    else if c == '\\' then "\\\\"
    else if c == '\n' then "\\n"
    else if c == '\r' then "\\r"
    else if c == '\t' then "\\t"
    else if c == '\U{8}' then "\\b"
    else if c == '\U{c}' then "\\f"
    else if ' ' <= c <= '~' then [c]
    else if c as int < 0x1_0000 then "\\u" + Hex4(c as int)
    else
      var v := c as int - 0x1_0000;
      "\\u" + Hex4(0xD800 + v / 0x400) + "\\u" + Hex4(0xDC00 + v % 0x400)
  }

  function EscapeString(s: string): (r: string)
    ensures Printable(r)
  {
    if s == [] then [] else EscapeString(s[..|s| - 1]) + EscapeChar(s[|s| - 1])
  }

  function Quote(s: string): (r: string)
    ensures Printable(r)
  {
    "\"" + EscapeString(s) + "\""
  }

  function Value(v: Json): (r: string)
    ensures Printable(r)
  {
    match v
    case JNull => "null"
    case JBool(b) => if b then "true" else "false"
    case JInt(i) => IntToString(i)
    case JStr(s) => Quote(s)
  }

  function Member(entry: (string, Json)): (r: string)
    ensures Printable(r)
  {
    Quote(entry.0) + ": " + Value(entry.1)
  }

  /** The members joined by ", ". */
  function Members(d: Dict): (r: string)
    ensures Printable(r)
  {
    if d == [] then ""
    else if |d| == 1 then Member(d[0])
    else Members(d[..|d| - 1]) + ", " + Member(d[|d| - 1])
  }

  /** `json.dumps(d)`. */
  function Dumps(d: Dict): (r: string)
  {
    "{" + Members(d) + "}"
  }

  /** The dump is one line of printable ASCII, whatever the keys and strings hold, braced. */
  lemma DumpsPrintable(d: Dict)
    ensures Printable(Dumps(d)) && '\n' !in Dumps(d)
    ensures |Dumps(d)| >= 2 && Dumps(d)[0] == '{' && Dumps(d)[|Dumps(d)| - 1] == '}'
  {
    var r := Dumps(d);
    assert forall i :: 0 <= i < |r| ==> ' ' <= r[i] <= '~';
  }

  /** Printable ASCII text without quote or backslash is written as it is. */
  lemma {:induction false} EscapePlain(s: string)
    requires forall i :: 0 <= i < |s| ==> ' ' <= s[i] <= '~' && s[i] != '"' && s[i] != '\\'
    ensures EscapeString(s) == s
  {
    if s != [] {
      var init, last := s[..|s| - 1], s[|s| - 1];
      EscapePlain(init);
      assert EscapeChar(last) == [last];
      assert s == init + [last];
    }
  }
}
