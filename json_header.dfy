/** The record header `{"type":…,"key":…}`: how `JSON.stringify` writes the
    header object, and how `JSON.parse` reads that text back. */
module JsonHeader {
  import opened Wrappers

  /** The header object; `kind` is its `type` member. */
  datatype Header = Header(kind: string, key: string)

  predicate IsHexChar(c: char) { '0' <= c <= '9' || 'a' <= c <= 'f' || 'A' <= c <= 'F' }

  /** The lower-case hex digit JSON.stringify writes for `d`. */
  function HexDigit(d: int): (c: char)
    requires 0 <= d < 16
    ensures IsHexChar(c) && c != '\n'
  {
    if d < 10 then ('0' as int + d) as char else ('a' as int + d - 10) as char
  }

  function HexValue(c: char): (d: int)
    requires IsHexChar(c)
    ensures 0 <= d < 16
  {
    if c <= '9' then c as int - '0' as int
    else if c <= 'F' then c as int - 'A' as int + 10
    else c as int - 'a' as int + 10
  }

  /** How JSON.stringify writes one character inside a string literal: the
      quote and the backslash are escaped, so are the control characters
      (backspace, form feed, line feed, carriage return and tab by their short
      escapes, the others as \u00xx); everything else is written as it is. */
  function EscapeChar(c: char): string
  {
    if c == '"' then ['\\', '"']
    else if c == '\\' then ['\\', '\\']
    else if c as int == 8 then ['\\', 'b']
    else if c as int == 12 then ['\\', 'f']
    else if c == '\n' then ['\\', 'n']
    else if c == '\r' then ['\\', 'r']
    else if c == '\t' then ['\\', 't']
    else if c as int < 0x20 then ['\\', 'u', '0', '0', HexDigit(c as int / 16), HexDigit(c as int % 16)]
    else [c]
  }

  function Escape(s: string): string
  {
    if s == [] then [] else EscapeChar(s[0]) + Escape(s[1..])
  }

  /** JSON.stringify of a string. */
  function Quote(s: string): string
  {
    ['"'] + Escape(s) + ['"']
  }

  const TypeOpen := "{\"type\":"
  const KeyOpen := ",\"key\":"
  const Close := "}"

  /** JSON.stringify({type: h.kind, key: h.key}): members in that order, no
      white space. */
  function Stringify(h: Header): string
  {
    TypeOpen + Quote(h.kind) + KeyOpen + Quote(h.key) + Close
  }

  /** Reads the escape sequence that follows a backslash: the character it
      stands for and how many characters it takes. \u escapes naming a
      surrogate code unit are refused, since a string here holds scalar
      values only. */
  function Unescape(s: string): (r: Option<(char, nat)>)
    ensures r.Some? ==> 1 <= r.value.1 <= |s|
  {
    if s == [] then None
    else if s[0] == '"' then Some(('"', 1))
    else if s[0] == '\\' then Some(('\\', 1))
    else if s[0] == '/' then Some(('/', 1))
    else if s[0] == 'b' then Some((8 as char, 1))
    else if s[0] == 'f' then Some((12 as char, 1))
    else if s[0] == 'n' then Some(('\n', 1))
    else if s[0] == 'r' then Some(('\r', 1))
    else if s[0] == 't' then Some(('\t', 1))
    else if s[0] == 'u' && |s| >= 5 && IsHexChar(s[1]) && IsHexChar(s[2]) && IsHexChar(s[3]) && IsHexChar(s[4]) then
      var n := ((HexValue(s[1]) * 16 + HexValue(s[2])) * 16 + HexValue(s[3])) * 16 + HexValue(s[4]);
      if 0xD800 <= n < 0xE000 then None else Some((n as char, 5))
    else None
  }

  /** Reads the characters of a string literal whose opening quote has been
      consumed, up to and including the closing quote; gives the characters
      and the text after the literal. A raw control character is an error,
      as in JSON.parse. */
  function ParseChars(s: string): (r: Option<(string, string)>)
    ensures r.Some? ==> |r.value.1| < |s|
    decreases |s|
  {
    if s == [] then None
    else if s[0] == '"' then Some(([], s[1..]))
    else if s[0] == '\\' then
      match Unescape(s[1..])
      case None => None
      case Some((c, n)) =>
        match ParseChars(s[1 + n..])
        case None => None
        case Some((t, rest)) => Some(([c] + t, rest))
    else if s[0] as int < 0x20 then None
    else
      match ParseChars(s[1..])
      case None => None
      case Some((t, rest)) => Some(([s[0]] + t, rest))
  }

  /** Reads one JSON string literal at the start of `s`. */
  function ParseString(s: string): Option<(string, string)>
  {
    if s != [] && s[0] == '"' then ParseChars(s[1..]) else None
  }

  /** JSON.parse of a header line, for the layout Stringify writes. */
  function Parse(s: string): Option<Header>
  {
    if |s| < |TypeOpen| || s[..|TypeOpen|] != TypeOpen then None
    else match ParseString(s[|TypeOpen|..])
      case None => None
      case Some((kind, afterKind)) => ParseKeyMember(kind, afterKind)
  }

  /** The rest of a header line after the `type` member: the `key` member
      and the closing brace, with nothing after it. */
  function ParseKeyMember(kind: string, s: string): Option<Header>
  {
    if |s| < |KeyOpen| || s[..|KeyOpen|] != KeyOpen then None
    else match ParseString(s[|KeyOpen|..])
      case None => None
      case Some((key, afterKey)) =>
        if afterKey == Close then Some(Header(kind, key)) else None
  }

  lemma HexRoundTrip(d: int)
    requires 0 <= d < 16
    ensures HexValue(HexDigit(d)) == d
  {
  }

  /** The escaped form of one character reads back as that character. */
  lemma ParseEscapedChar(c: char, t: string)
    ensures ParseChars(EscapeChar(c) + t) ==
      match ParseChars(t)
      case None => None
      case Some((u, rest)) => Some(([c] + u, rest))
  {
    var e := EscapeChar(c);
    var s := e + t;
    if |e| == 2 {
      assert s[2..] == t;
    } else if |e| == 6 {
      var n := c as int;
      HexRoundTrip(n / 16);
      HexRoundTrip(n % 16);
      assert s[1..][1..5] == ['0', '0', HexDigit(n / 16), HexDigit(n % 16)];
      assert (n as char) == c;
      assert s[6..] == t;
    } else {
      assert s[1..] == t;
    }
  }

  /** Reading back an escaped string, followed by the closing quote, gives
      the string and leaves the text after the quote. */
  lemma {:induction false} ParseEscaped(s: string, rest: string)
    ensures ParseChars(Escape(s) + ['"'] + rest) == Some((s, rest))
  {
    if s == [] {
      assert Escape(s) + ['"'] + rest == ['"'] + rest;
    } else {
      var t := Escape(s[1..]) + ['"'] + rest;
      assert Escape(s) + ['"'] + rest == EscapeChar(s[0]) + t;
      ParseEscapedChar(s[0], t);
      ParseEscaped(s[1..], rest);
      assert [s[0]] + s[1..] == s;
    }
  }

  lemma ParseQuoted(s: string, rest: string)
    ensures ParseString(Quote(s) + rest) == Some((s, rest))
  {
    assert (Quote(s) + rest)[1..] == Escape(s) + ['"'] + rest;
    ParseEscaped(s, rest);
  }

  /** The `key` member Stringify writes reads back as that key. */
  lemma ParseKeyMemberQuoted(kind: string, key: string)
    ensures ParseKeyMember(kind, KeyOpen + Quote(key) + Close) == Some(Header(kind, key))
  {
    var s := KeyOpen + Quote(key) + Close;
    assert s[..|KeyOpen|] == KeyOpen;
    assert s[|KeyOpen|..] == Quote(key) + Close;
    ParseQuoted(key, Close);
  }

  /** JSON.parse reads back what JSON.stringify wrote for the header. */
  lemma ParseStringify(h: Header)
    ensures Parse(Stringify(h)) == Some(h)
  {
    var s := Stringify(h);
    var afterKind := KeyOpen + Quote(h.key) + Close;
    assert s == TypeOpen + (Quote(h.kind) + afterKind);
    assert s[..|TypeOpen|] == TypeOpen;
    assert s[|TypeOpen|..] == Quote(h.kind) + afterKind;
    ParseQuoted(h.kind, afterKind);
    ParseKeyMemberQuoted(h.kind, h.key);
  }

  predicate IsPlain(s: string)
  {
    forall i | 0 <= i < |s| :: 'a' <= s[i] <= 'z' || '0' <= s[i] <= '9'
  }

  /** Lower-case letters and digits are written as they are. */
  lemma {:induction false} EscapePlain(s: string)
    requires IsPlain(s)
    ensures Escape(s) == s
  {
    if s != [] {
      EscapePlain(s[1..]);
      assert [s[0]] + s[1..] == s;
    }
  }

  /** For a type and key made of lower-case letters and digits the header is
      the text `{"type":"<type>","key":"<key>"}`, with nothing added. */
  lemma StringifyPlain(kind: string, key: string)
    requires IsPlain(kind) && IsPlain(key)
    ensures Stringify(Header(kind, key)) == "{\"type\":\"" + kind + "\",\"key\":\"" + key + "\"}"
  {
    EscapePlain(kind);
    EscapePlain(key);
  }

  /** No line feed survives escaping. */
  lemma {:induction false} EscapeNewlineFree(s: string)
    ensures '\n' !in Escape(s)
  {
    if s != [] {
      EscapeNewlineFree(s[1..]);
      assert '\n' !in EscapeChar(s[0]);
      assert Escape(s) == EscapeChar(s[0]) + Escape(s[1..]);
    }
  }

  /** The header line never holds a line feed, whatever the key: this is
      what lets the first line feed of a record end its header. */
  lemma StringifyNewlineFree(h: Header)
    ensures '\n' !in Stringify(h)
  {
    EscapeNewlineFree(h.kind);
    EscapeNewlineFree(h.key);
  }
}
