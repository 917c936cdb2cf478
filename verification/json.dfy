/** The text of a JSON string, as the writer prints it. Characters stand for octets. */
module Json {
  import opened Wrappers

  const HEX := "0123456789ABCDEF"

  /** Control characters, the quote and the backslash are escaped, everything else is copied. */
  function Escape(c: char): (s: string)
    ensures s != "" && (s[0] == '\\' || s == [c])
  {
    if c == '"' then "\\\""
    else if c == '\\' then "\\\\"
    else if c == '\n' then "\\n"
    else if c == '\r' then "\\r"
    else if c == '\t' then "\\t"
    else if c == '\U{8}' then "\\b"
    else if c == '\U{C}' then "\\f"
    else if c < ' ' then "\\u00" + [HEX[c as int / 16], HEX[c as int % 16]]
    else [c]
  }

  function Escapes(s: string): string {
    if s == "" then "" else Escape(s[0]) + Escapes(s[1..])
  }

  function Quote(s: string): string {
    "\"" + Escapes(s) + "\""
  }

  lemma {:induction false} NoRawLineBreak(s: string)
    ensures '\n' !in Escapes(s) && '\n' !in Quote(s)
  {
    if s != "" {
      NoRawLineBreak(s[1..]);
      EscapeNoBreak(s[0]);
    }
  }

  lemma EscapeNoBreak(c: char)
    ensures '\n' !in Escape(c)
  {
  }

  function Digit(c: char): Option<nat> {
    if '0' <= c <= '9' then Some(c as int - '0' as int)
    else if 'A' <= c <= 'F' then Some(c as int - 'A' as int + 10)
    else None
  }

  datatype Unescaped = Unescaped(c: char, n: nat)

  /** One character of a string literal, written raw or as an escape. */
  function Unescape(q: string): Option<Unescaped> {
    if q == "" || q[0] == '"' || q[0] < ' ' then None
    else if q[0] != '\\' then Some(Unescaped(q[0], 1))
    else if |q| < 2 then None
    else if q[1] == '"' || q[1] == '\\' then Some(Unescaped(q[1], 2))
    else if q[1] == 'n' then Some(Unescaped('\n', 2))
    else if q[1] == 'r' then Some(Unescaped('\r', 2))
    else if q[1] == 't' then Some(Unescaped('\t', 2))
    else if q[1] == 'b' then Some(Unescaped('\U{8}', 2))
    else if q[1] == 'f' then Some(Unescaped('\U{C}', 2))
    else if |q| >= 6 && q[1..4] == "u00" && Digit(q[4]).Some? && Digit(q[5]).Some?
    then Some(Unescaped((Digit(q[4]).value * 16 + Digit(q[5]).value) as char, 6))
    else None
  }

  /** What a string literal denotes, from after its opening quote to its closing one. */
  function Unquote(q: string): Option<string>
    decreases |q|
  {
    if q == "\"" then Some("")
    else match Unescape(q)
      case None => None
      case Some(Unescaped(c, n)) =>
        if n > |q| then None
        else match Unquote(q[n..])
          case None => None
          case Some(s) => Some([c] + s)
  }

  lemma UnescapeEscape(c: char, rest: string)
    ensures Unescape(Escape(c) + rest) == Some(Unescaped(c, |Escape(c)|))
  {
    var q := Escape(c) + rest;
    if c < ' ' && c != '\n' && c != '\r' && c != '\t' && c != '\U{8}' && c != '\U{C}' {
      assert q[1..4] == "u00";
      assert q[4] == HEX[c as int / 16] && q[5] == HEX[c as int % 16];
    }
  }

  /** The literal denotes exactly what was quoted. */
  lemma {:induction false} UnquoteQuote(s: string)
    ensures Unquote(Quote(s)[1..]) == Some(s)
  {
    hide Escape, Unescape;
    var q := Quote(s)[1..];
    assert q == Escapes(s) + "\"";
    if s != "" {
      var e, rest := Escape(s[0]), Quote(s[1..])[1..];
      assert rest == Escapes(s[1..]) + "\"";
      assert q == e + rest && q[|e|..] == rest;
      UnescapeEscape(s[0], rest);
      UnquoteQuote(s[1..]);
      assert s == [s[0]] + s[1..] && |rest| >= 1;
    }
  }

  /** A literal ends where its text does: what was quoted can be told whatever follows. */
  lemma {:induction false} QuotedFirst(a: string, x: string, b: string, y: string)
    requires Escapes(a) + "\"" + x == Escapes(b) + "\"" + y
    ensures a == b
  {
    hide Escape, Unescape;
    QuoteCloses(a, x);
    QuoteCloses(b, y);
    if a != "" && b != "" {
      var u, v := Escapes(a[1..]) + "\"" + x, Escapes(b[1..]) + "\"" + y;
      QuotedSplit(a, x);
      QuotedSplit(b, y);
      UnescapeEscape(a[0], u);
      UnescapeEscape(b[0], v);
      assert (Escape(a[0]) + u)[|Escape(a[0])|..] == u && (Escape(b[0]) + v)[|Escape(b[0])|..] == v;
      QuotedFirst(a[1..], x, b[1..], y);
      assert a == [a[0]] + a[1..] && b == [b[0]] + b[1..];
    }
  }

  lemma QuotedSplit(s: string, x: string)
    requires s != ""
    ensures Escapes(s) + "\"" + x == Escape(s[0]) + (Escapes(s[1..]) + "\"" + x)
  {
    hide Escape;
  }

  lemma QuoteCloses(s: string, x: string)
    ensures (Escapes(s) + "\"" + x)[0] == '"' <==> s == ""
  {
  }
}
