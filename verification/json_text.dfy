/** JSON text for strings: `JSON.stringify` applied to a string (the
    QuoteJSONString operation of section 25.5.2.3 of ECMA-262), and a decoder
    for the string literals of section 7 of RFC 8259 that serves as its
    inverse. */
module JsonText {
  import opened Results
  import Strings

  const LowerHex := "0123456789abcdef"

  /** The escape JSON.stringify writes for one character. The seven
      characters with a short escape use it; every other character below
      U+0020 is written as `\u00` and two lower-case hexadecimal digits;
      everything else is copied. */
  function Escape(c: char): (r: string)
    ensures |r| > 0 && r[0] != '"'
    ensures !NeedsEscape(c) ==> r == [c]
    ensures NeedsEscape(c) ==> r[0] == '\\'
    ensures c == '"' ==> r == "\\\""
    ensures c == '\\' ==> r == "\\\\"
  {
    var n := c as int;
    if n == 0x08 then "\\b"
    else if n == 0x09 then "\\t"
    else if n == 0x0A then "\\n"
    else if n == 0x0C then "\\f"
    else if n == 0x0D then "\\r"
    else if c == '"' then "\\\""
    else if c == '\\' then "\\\\"
    else if n < 0x20 then "\\u00" + [LowerHex[n / 16], LowerHex[n % 16]]
    else [c]
  }

  /** The characters JSON.stringify does not copy as they are: the quote,
      the backslash and the control characters below U+0020. */
  predicate NeedsEscape(c: char) {
    c == '"' || c == '\\' || (c as int) < 0x20
  }

  /** The escaped characters of `s`, without the surrounding quotes. */
  function QuoteBody(s: string): string {
    if |s| == 0 then [] else Escape(s[0]) + QuoteBody(s[1..])
  }

  /** `JSON.stringify(s)` for a string `s`. */
  function Quote(s: string): (r: string)
    ensures |r| >= |s| + 2
    ensures r[0] == '"' && r[|r| - 1] == '"'
  {
    QuoteBodyLength(s);
    "\"" + QuoteBody(s) + "\""
  }

  /** A string with no character that needs an escape is written as itself
      between two quotes. */
  lemma QuoteVerbatim(s: string)
    ensures (forall i :: 0 <= i < |s| ==> !NeedsEscape(s[i])) ==> Quote(s) == "\"" + s + "\""
  {
    if forall i :: 0 <= i < |s| ==> !NeedsEscape(s[i]) {
      QuoteBodyVerbatim(s);
    }
  }

  lemma {:induction false} QuoteBodyVerbatim(s: string)
    requires forall i :: 0 <= i < |s| ==> !NeedsEscape(s[i])
    ensures QuoteBody(s) == s
  {
    if |s| > 0 {
      QuoteBodyVerbatim(s[1..]);
      assert s == [s[0]] + s[1..];
    }
  }

  lemma {:induction false} QuoteBodyLength(s: string)
    ensures |QuoteBody(s)| >= |s|
  {
    if |s| > 0 {
      QuoteBodyLength(s[1..]);
    }
  }

  /** The value of a hexadecimal digit of either case. */
  function HexValue(c: char): (r: Option<nat>)
    ensures r.Some? ==> r.value < 16
  {
    if '0' <= c <= '9' then Some(c as int - '0' as int)
    else if 'a' <= c <= 'f' then Some(c as int - 'a' as int + 10)
    else if 'A' <= c <= 'F' then Some(c as int - 'A' as int + 10)
    else None
  }

  /** The code unit written by four hexadecimal digits. */
  function ParseHex4(h: string): (r: Option<nat>)
    requires |h| == 4
    ensures r.Some? ==> r.value < 0x10000
  {
    var a :- HexValue(h[0]);
    var b :- HexValue(h[1]);
    var c :- HexValue(h[2]);
    var d :- HexValue(h[3]);
    HexStep(a, b, 16);
    HexStep(a * 16 + b, c, 256);
    HexStep((a * 16 + b) * 16 + c, d, 4096);
    Some(((a * 16 + b) * 16 + c) * 16 + d)
  }

  /** Appending a hexadecimal digit multiplies the bound by sixteen. */
  lemma HexStep(x: nat, d: nat, bound: nat)
    requires x < bound && d < 16
    ensures x * 16 + d < bound * 16
  {
  }

  /** The lower-case digit of `d` reads back as `d`. */
  lemma LowerHexValue(d: nat)
    requires d < 16
    ensures HexValue(LowerHex[d]) == Some(d)
  {
  }

  /** The six-character escape of a control character decodes to it. */
  lemma HexEscapeValue(n: nat)
    requires n < 0x20
    ensures ParseHex4("00" + [LowerHex[n / 16], LowerHex[n % 16]]) == Some(n)
  {
    var h := "00" + [LowerHex[n / 16], LowerHex[n % 16]];
    LowerHexValue(n / 16);
    LowerHexValue(n % 16);
    assert HexValue(h[0]) == Some(0) && HexValue(h[1]) == Some(0);
  }

  /** The character a two-character escape `\x` stands for. */
  function ShortEscape(x: char): Option<char> {
    if x == '"' then Some('"')
    else if x == '\\' then Some('\\')
    else if x == '/' then Some('/')
    else if x == 'b' then Some(8 as char)
    else if x == 'f' then Some(12 as char)
    else if x == 'n' then Some('\n')
    else if x == 'r' then Some('\r')
    else if x == 't' then Some('\t')
    else None
  }

  function Prepend(c: char, rest: Option<string>): Option<string> {
    match rest
    case None => None
    case Some(t) => Some([c] + t)
  }

  /** Decodes the first character of the text between the quotes of an
      RFC 8259 string literal: the character and the number of text
      characters it takes. An unescaped quote or control character is
      rejected, and so is a `\u` escape of a UTF-16 surrogate, since the
      model's characters are Unicode scalar values. */
  function DecodeOne(b: string): (r: Option<(char, nat)>)
    ensures r.Some? ==> 0 < r.value.1 <= |b|
  {
    if |b| == 0 then None
    else if b[0] == '\\' then
      if |b| < 2 then None
      else match ShortEscape(b[1])
        case Some(c) => Some((c, 2))
        case None =>
          if b[1] != 'u' || |b| < 6 then None
          else match ParseHex4(b[2..6])
            case None => None
            case Some(n) =>
              if 0xD800 <= n < 0xE000 then None else Some((n as char, 6))
    else if b[0] == '"' || (b[0] as int) < 0x20 then None
    else Some((b[0], 1))
  }

  /** Decodes the characters between the quotes of an RFC 8259 string
      literal, one character at a time. */
  function Unescape(b: string): Option<string>
    decreases |b|
  {
    if |b| == 0 then Some([])
    else match DecodeOne(b)
      case None => None
      case Some((c, n)) => Prepend(c, Unescape(b[n..]))
  }

  /** The string an RFC 8259 string literal denotes, if `t` is one. */
  function Unquote(t: string): Option<string> {
    if |t| >= 2 && t[0] == '"' && t[|t| - 1] == '"' then Unescape(t[1..|t| - 1])
    else None
  }

  /** The first character decoded from an escaped character followed by
      more text is that character, taking the whole escape. */
  lemma EscapeDecodes(c: char, rest: string)
    ensures DecodeOne(Escape(c) + rest) == Some((c, |Escape(c)|))
  {
    var e := Escape(c);
    var n := c as int;
    if n < 0x20 && n != 0x08 && n != 0x09 && n != 0x0A && n != 0x0C && n != 0x0D {
      var h := [LowerHex[n / 16], LowerHex[n % 16]];
      assert e + rest == "\\u00" + h + rest;
      assert (e + rest)[2..6] == "00" + h;
      HexEscapeValue(n);
      assert (n as char) == c;
    }
  }

  /** Decoding an escaped character followed by more text yields the
      character followed by the decoding of the text. */
  lemma EscapeThenUnescape(c: char, rest: string)
    ensures Unescape(Escape(c) + rest) == Prepend(c, Unescape(rest))
  {
    EscapeDecodes(c, rest);
    assert (Escape(c) + rest)[|Escape(c)|..] == rest;
  }

  /** Escapes are uniquely decodable: an escape followed by text determines
      both the character and the text. */
  lemma EscapeUnique(c: char, d: char, x: string, y: string)
    requires Escape(c) + x == Escape(d) + y
    ensures c == d && x == y
  {
    EscapeDecodes(c, x);
    EscapeDecodes(d, y);
    assert (Escape(c) + x)[|Escape(c)|..] == x;
    assert (Escape(d) + y)[|Escape(d)|..] == y;
  }

  /** The escaped characters of a string, followed by a quote, determine the
      string and what follows the quote. */
  lemma {:induction false} QuoteBodyUnique(s: string, t: string, x: string, y: string)
    requires QuoteBody(s) + "\"" + x == QuoteBody(t) + "\"" + y
    ensures s == t && x == y
  {
    var l := QuoteBody(s) + "\"" + x;
    if |s| == 0 {
      QuoteBodyNil(s, x);
    } else {
      QuoteBodyCons(s, x);
      assert l[0] == Escape(s[0])[0];
    }
    if |t| == 0 {
      QuoteBodyNil(t, y);
    } else {
      QuoteBodyCons(t, y);
      assert l[0] == Escape(t[0])[0];
    }
    if |s| == 0 && |t| == 0 {
      assert x == l[1..] == y;
    } else if |s| > 0 && |t| > 0 {
      EscapeUnique(s[0], t[0], QuoteBody(s[1..]) + "\"" + x, QuoteBody(t[1..]) + "\"" + y);
      QuoteBodyUnique(s[1..], t[1..], x, y);
      assert s == [s[0]] + s[1..] && t == [t[0]] + t[1..];
    }
  }

  /** The escaped characters of an empty string and a quote, followed by
      `x`: the quote, then `x`. */
  lemma QuoteBodyNil(s: string, x: string)
    requires |s| == 0
    ensures QuoteBody(s) + "\"" + x == "\"" + x
  {
    assert QuoteBody(s) == [];
  }

  /** The escaped characters of a non-empty string `s` and a quote, followed
      by `x`: the escape of its first character comes first. */
  lemma QuoteBodyCons(s: string, x: string)
    requires |s| > 0
    ensures QuoteBody(s) + "\"" + x == Escape(s[0]) + (QuoteBody(s[1..]) + "\"" + x)
  {
    Strings.Regroup(Escape(s[0]), QuoteBody(s[1..]), "\"", x);
  }

  /** JSON string texts are prefix-free: a JSON string text followed by
      more text determines both the string and the text. */
  lemma QuoteUnique(s: string, t: string, x: string, y: string)
    requires Quote(s) + x == Quote(t) + y
    ensures s == t && x == y
  {
    QuoteSplit(s, x);
    QuoteSplit(t, y);
    QuoteBodyUnique(s, t, x, y);
  }

  /** A JSON string text followed by `x`, without its opening quote. */
  lemma QuoteSplit(s: string, x: string)
    ensures (Quote(s) + x)[1..] == QuoteBody(s) + "\"" + x
  {
    Strings.Regroup("\"", QuoteBody(s), "\"", x);
  }

  lemma {:induction false} UnescapeQuoteBody(s: string)
    ensures Unescape(QuoteBody(s)) == Some(s)
  {
    if |s| > 0 {
      UnescapeQuoteBody(s[1..]);
      EscapeThenUnescape(s[0], QuoteBody(s[1..]));
      assert [s[0]] + s[1..] == s;
    }
  }

  /** Round trip: the JSON text `JSON.stringify` writes for a string decodes,
      as RFC 8259 reads it, back to that string. */
  lemma {:induction false} QuoteRoundTrip(s: string)
    ensures Unquote(Quote(s)) == Some(s)
  {
    var q := Quote(s);
    assert q[1..|q| - 1] == QuoteBody(s);
    UnescapeQuoteBody(s);
  }

  /** Distinct strings are written as distinct JSON texts. */
  lemma QuoteInjective(s: string, t: string)
    requires Quote(s) == Quote(t)
    ensures s == t
  {
    QuoteRoundTrip(s);
    QuoteRoundTrip(t);
  }
}
