/**
 * How values are spelled inside statement text. The resolvers build their
 * CREATE statements with Rust's `format!` and `{:?}`; this module gives the
 * Debug spelling of strings, booleans and integers, and the way the store reads
 * a string literal back, so that what a statement carries can be stated.
 */
module Literals {
  import opened Cypher

  /** Debug spelling of one character inside a quoted str. */
  function EscapeChar(c: char): string
  {
    if c == '"' then "\\\""
    else if c == '\\' then "\\\\"
    else if c == '\n' then "\\n"
    else if c == '\r' then "\\r"
    else if c == '\t' then "\\t"
    else [c]
  }

  function Escape(s: string): string
  {
    if s == [] then [] else EscapeChar(s[0]) + Escape(s[1..])
  }

  /** `format!("{:?}", s)` for a str: the escaped text between double quotes. */
  function DebugStr(s: string): string
  {
    "\"" + Escape(s) + "\""
  }

  /** `format!("{:?}", b)` for a bool. */
  function DebugBool(b: bool): string
  {
    if b then "true" else "false"
  }

  function DigitChar(d: nat): char
    requires d < 10
  {
    "0123456789"[d]
  }

  function Digits(n: nat): string
  {
    if n < 10 then [DigitChar(n)] else Digits(n / 10) + [DigitChar(n % 10)]
  }

  /** `format!("{:?}", n)` for an integer: decimal, with a leading minus when negative. */
  function DebugInt(n: int): string
  {
    if n < 0 then "-" + Digits(-n) else Digits(n)
  }

  /** The character a backslash escape inside a string literal stands for. */
  function Unescape(c: char): Option<char>
  {
    if c == 'n' then Some('\n')
    else if c == 'r' then Some('\r')
    else if c == 't' then Some('\t')
    else if c == '"' then Some('"')
    else if c == '\'' then Some('\'')
    else if c == '\\' then Some('\\')
    else None
  }

  /**
   * The store's reading of the rest of a string literal whose opening quote has
   * been consumed: the decoded value and the text after the closing quote, or
   * None when the literal is malformed or never closed.
   */
  function LiteralBody(s: string): Option<(string, string)>
    decreases |s|
  {
    if s == [] then None
    else if s[0] == '"' then Some(("", s[1..]))
    else if s[0] == '\\' then
      if |s| < 2 then None
      else
        match Unescape(s[1])
        case None => None
        case Some(c) =>
          match LiteralBody(s[2..])
          case None => None
          case Some((v, rest)) => Some(([c] + v, rest))
    else
      match LiteralBody(s[1..])
      case None => None
      case Some((v, rest)) => Some(([s[0]] + v, rest))
  }

  /** The string literal at the start of `s`, decoded, and the text after it. */
  function ParseStringLiteral(s: string): Option<(string, string)>
  {
    if |s| > 0 && s[0] == '"' then LiteralBody(s[1..]) else None
  }

  /** One escaped character is read back as that character, and reading resumes right after it. */
  lemma LiteralBodyOfEscapeChar(c: char, after: string)
    ensures LiteralBody(EscapeChar(c) + after) ==
            match LiteralBody(after)
            case None => None
            case Some((v, rest)) => Some(([c] + v, rest))
  {
    var e := EscapeChar(c);
    if |e| == 2 {
      assert (e + after)[0] == '\\' && (e + after)[1] == e[1] && (e + after)[2..] == after;
    } else {
      assert (e + after)[0] == c && (e + after)[1..] == after;
    }
  }

  lemma {:induction false} LiteralBodyOfEscape(s: string, rest: string)
    ensures LiteralBody(Escape(s) + "\"" + rest) == Some((s, rest))
    decreases |s|
  {
    if s == [] {
      assert Escape(s) + "\"" + rest == "\"" + rest;
    } else {
      var after := Escape(s[1..]) + "\"" + rest;
      assert Escape(s) + "\"" + rest == EscapeChar(s[0]) + after;
      LiteralBodyOfEscape(s[1..], rest);
      LiteralBodyOfEscapeChar(s[0], after);
      assert [s[0]] + s[1..] == s;
    }
  }

  /** Reading back a Debug-quoted string gives the string, and stops right after its closing quote. */
  lemma DebugStrRoundTrip(s: string, rest: string)
    ensures ParseStringLiteral(DebugStr(s) + rest) == Some((s, rest))
  {
    assert (DebugStr(s) + rest)[1..] == Escape(s) + "\"" + rest;
    LiteralBodyOfEscape(s, rest);
  }

  lemma StartsWith(a: string, b: string)
    ensures (a + b)[..|a|] == a && (a + b)[|a|..] == b
  {
  }

  lemma EndsWith(a: string, b: string)
    ensures |b| <= |a + b| && (a + b)[|a + b| - |b|..] == b
  {
  }
}
