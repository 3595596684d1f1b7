/**
 JSON string literals as encoding/json writes them, and a reader for them that
 follows section 7 of RFC 8259. The reader inverts the writer whatever text follows
 the literal, so literals are self-delimiting and distinct strings stay distinct.
 */
module JsonString {
  import opened Wrappers

  function HexDigit(n: nat): char
    requires n < 16
  {
    if n < 10 then '0' + n as char else 'a' + (n - 10) as char
  }

  function HexValue(c: char): Option<nat> {
    if '0' <= c <= '9' then Some(c as int - '0' as int)
    else if 'a' <= c <= 'f' then Some(c as int - 'a' as int + 10)
    else if 'A' <= c <= 'F' then Some(c as int - 'A' as int + 10)
    else None
  }

  /** The letter of a two-character escape, where the encoder uses one. */
  function ShortEscape(c: char): Option<char> {
    if c == '"' || c == '\\' then Some(c)
    else if c as int == 0x08 then Some('b')
    else if c as int == 0x0C then Some('f')
    else if c == '\n' then Some('n')
    else if c == '\r' then Some('r')
    else if c == '\t' then Some('t')
    else None
  }

  /** Control characters, HTML-sensitive characters and the two line separators are written in hex. */
  predicate NeedsHex(c: char) {
    c as int < 0x20 || c == '<' || c == '>' || c == '&' || c as int == 0x2028 || c as int == 0x2029
  }

  function HexEscape(n: nat): string
    requires n < 0x10000
  {
    ['\\', 'u', HexDigit(n / 4096), HexDigit(n / 256 % 16), HexDigit(n / 16 % 16), HexDigit(n % 16)]
  }

  function Escape(c: char): (s: string)
    ensures s != "" && s[0] != '"'
  {
    if ShortEscape(c).Some? then ['\\', ShortEscape(c).value]
    else if NeedsHex(c) then HexEscape(c as int)
    else [c]
  }

  function EscapeAll(s: string): string {
    if s == "" then "" else Escape(s[0]) + EscapeAll(s[1..])
  }

  function Quote(s: string): string {
    "\"" + (EscapeAll(s) + "\"")
  }

  /** What encoding/json writes for the characters with an escape of their own. */
  lemma NamedEscapes()
    ensures Escape('"') == "\\\"" && Escape('\\') == "\\\\"
    ensures Escape('\n') == "\\n" && Escape('\r') == "\\r" && Escape('\t') == "\\t"
    ensures Escape(0x08 as char) == "\\b" && Escape(0x0C as char) == "\\f"
  {
  }

  /** What encoding/json writes for the characters that HTML singles out. */
  lemma HexEscapes()
    ensures Escape('<') == "\\u003c" && Escape('>') == "\\u003e" && Escape('&') == "\\u0026"
  {
  }

  /** And for the line separators and two of the control characters. */
  lemma ControlEscapes()
    ensures Escape(0x2028 as char) == "\\u2028" && Escape(0x2029 as char) == "\\u2029"
    ensures Escape(0x00 as char) == "\\u0000" && Escape(0x1F as char) == "\\u001f"
  {
  }

  /** Every other printable character is written as it is. */
  lemma PlainCharacters(c: char)
    requires c as int >= 0x20 && c != '"' && c != '\\' && c != '<' && c != '>' && c != '&'
    requires c as int != 0x2028 && c as int != 0x2029
    ensures Escape(c) == [c]
  {
  }

  /** The character a two-character escape stands for. */
  function Unescape(c: char): Option<char> {
    if c == '"' || c == '\\' || c == '/' then Some(c)
    else if c == 'b' then Some(0x08 as char)
    else if c == 'f' then Some(0x0C as char)
    else if c == 'n' then Some('\n')
    else if c == 'r' then Some('\r')
    else if c == 't' then Some('\t')
    else None
  }

  predicate IsScalar(n: nat) {
    n < 0xD800 || 0xE000 <= n < 0x10000
  }

  /** Reads one character of a literal and returns the rest. */
  function ReadChar(s: string): (r: Option<(char, string)>)
    ensures r.Some? ==> |r.value.1| < |s|
  {
    if s == "" || s[0] == '"' then None
    else if s[0] != '\\' then Some((s[0], s[1..]))
    else if |s| >= 2 && Unescape(s[1]).Some? then Some((Unescape(s[1]).value, s[2..]))
    else if |s| >= 6 && s[1] == 'u' then
      var a, b, c, d := HexValue(s[2]), HexValue(s[3]), HexValue(s[4]), HexValue(s[5]);
      if a.None? || b.None? || c.None? || d.None? then None else
        var n := ((a.value * 16 + b.value) * 16 + c.value) * 16 + d.value;
        if IsScalar(n) then Some((n as char, s[6..])) else None
    else None
  }

  /** Reads the rest of a literal up to its closing quote and returns what follows it. */
  function ReadChars(s: string): Option<(string, string)>
    decreases |s|
  {
    if s != "" && s[0] == '"' then Some(("", s[1..]))
    else
      var head := ReadChar(s);
      if head.None? then None else
        var tail := ReadChars(head.value.1);
        if tail.None? then None else Some(([head.value.0] + tail.value.0, tail.value.1))
  }

  function ReadString(s: string): Option<(string, string)> {
    if s == "" || s[0] != '"' then None else ReadChars(s[1..])
  }

  lemma HexRoundTrip(n: nat)
    requires n < 16
    ensures HexValue(HexDigit(n)) == Some(n)
  {
  }

  lemma HexDigitsOf(n: nat)
    requires n < 0x10000
    ensures n == ((n / 4096 * 16 + n / 256 % 16) * 16 + n / 16 % 16) * 16 + n % 16
  {
    assert n / 256 == n / 4096 * 16 + n / 256 % 16;
    assert n / 16 == n / 256 * 16 + n / 16 % 16;
  }

  lemma ReadHexEscape(n: nat, rest: string)
    requires n < 0x10000 && IsScalar(n)
    ensures ReadChar(HexEscape(n) + rest) == Some((n as char, rest))
  {
    HexRoundTrip(n / 4096);
    HexRoundTrip(n / 256 % 16);
    HexRoundTrip(n / 16 % 16);
    HexRoundTrip(n % 16);
    HexDigitsOf(n);
    var s := HexEscape(n) + rest;
    assert s[6..] == rest;
    assert s[0] == '\\' && s[1] == 'u' && s[2] == HexDigit(n / 4096) && s[3] == HexDigit(n / 256 % 16);
    assert s[4] == HexDigit(n / 16 % 16) && s[5] == HexDigit(n % 16);
  }

  lemma ReadCharInvertsEscape(c: char, rest: string)
    ensures ReadChar(Escape(c) + rest) == Some((c, rest))
  {
    if ShortEscape(c).Some? {
      var s := ['\\', ShortEscape(c).value] + rest;
      assert s[2..] == rest;
      assert s[1] == ShortEscape(c).value;
    } else if NeedsHex(c) {
      ReadHexEscape(c as int, rest);
    } else {
      assert ([c] + rest)[1..] == rest;
    }
  }

  lemma {:induction false} ReadCharsInvertsEscapeAll(s: string, rest: string)
    ensures ReadChars(EscapeAll(s) + ("\"" + rest)) == Some((s, rest))
  {
    hide ReadChar, Escape;
    if s == "" {
      assert EscapeAll(s) + ("\"" + rest) == "\"" + rest;
      assert ("\"" + rest)[1..] == rest;
    } else {
      var tail := EscapeAll(s[1..]) + ("\"" + rest);
      assert EscapeAll(s) + ("\"" + rest) == Escape(s[0]) + tail;
      ReadCharInvertsEscape(s[0], tail);
      ReadCharsInvertsEscapeAll(s[1..], rest);
      assert s == [s[0]] + s[1..];
    }
  }

  /** A literal reads back as the string it was written from, whatever follows it. */
  lemma ReadStringInvertsQuote(s: string, rest: string)
    ensures ReadString(Quote(s) + rest) == Some((s, rest))
  {
    var q := Quote(s) + rest;
    assert q[1..] == EscapeAll(s) + ("\"" + rest);
    ReadCharsInvertsEscapeAll(s, rest);
  }

  lemma QuoteIsSelfDelimiting(a: string, s: string, b: string, t: string)
    requires Quote(a) + s == Quote(b) + t
    ensures a == b && s == t
  {
    hide ReadString, Quote;
    ReadStringInvertsQuote(a, s);
    ReadStringInvertsQuote(b, t);
  }
}
