/**
 * The lexical level of the rule language (abusehelper/core/rules/rulelang.py):
 * whitespace and keywords, the atom parsers and the atom formatters.
 *
 * A parser's cursor `(text, start, end)` is represented by the slice
 * `text[start:end]` that is still to be read: every parser here looks only inside
 * that slice and answers with the slice that follows what it consumed.
 */
module Lexer {
  import opened Wrappers
  import opened Text
  import opened Rules

  /** A parser's answer: failure, or a value and the unconsumed rest of the cursor. */
  datatype Parsed<+T> = Fail | Success(value: T, rest: string)

  // ---------------------------------------------------------------------
  // Whitespace and literal text

  /** The characters `ws` accepts: space, tab, line feed, carriage return. */
  predicate IsWs(c: char)
  {
    c == ' ' || c == '\t' || c == '\n' || c == '\r'
  }

  /** Drops the leading run of whitespace (`maybe(ws)`). */
  function SkipWs(s: string): (r: string)
    ensures |r| <= |s| && r == s[|s| - |r|..]
    ensures r == [] || !IsWs(r[0])
    ensures forall i :: 0 <= i < |s| - |r| ==> IsWs(s[i])
  {
    if s != [] && IsWs(s[0]) then
      var r := SkipWs(s[1..]);
      assert forall i :: 1 <= i < |s| - |r| ==> s[i] == s[1..][i - 1];
      r
    else s
  }

  /** `ws`: one or more whitespace characters, as many as there are. */
  function Ws(s: string): Option<string>
  {
    if s != [] && IsWs(s[0]) then Some(SkipWs(s)) else None
  }

  /** The `ws` parser's loop over the explicit cursor `(text, start, end)`. */
  method WsScan(text: string, start: nat, end: nat) returns (next: Option<nat>)
    requires start <= end <= |text|
    ensures next.None? <==> Ws(text[start..end]).None?
    ensures next.Some? ==> start < next.value <= end && text[next.value..end] == Ws(text[start..end]).value
  {
    if !(start < end) || !IsWs(text[start]) {
      assert start < end ==> text[start..end][0] == text[start];
      return None;
    }
    var i := start + 1;
    assert text[start..end][0] == text[start];
    while i < end && IsWs(text[i])
      invariant start < i <= end
      invariant forall k :: start <= k < i ==> IsWs(text[k])
      decreases end - i
    {
      i := i + 1;
    }
    SkipWsRun(text, start, i, end);
    next := Some(i);
  }

  /**
   * Skipping whitespace from `start` ends at `i` when `text[start..i]` is all
   * whitespace and `text[i]`, if there is one, is not.
   */
  lemma {:induction false} SkipWsRun(text: string, start: nat, i: nat, end: nat)
    requires start <= i <= end <= |text|
    requires forall k :: start <= k < i ==> IsWs(text[k])
    requires i < end ==> !IsWs(text[i])
    ensures SkipWs(text[start..end]) == text[i..end]
    decreases i - start
  {
    if start < i {
      assert text[start..end][0] == text[start] && text[start..end][1..] == text[start + 1..end];
      SkipWsRun(text, start + 1, i, end);
    } else if i < end {
      assert text[i..end][0] == text[i];
    }
  }

  /** `txt(lit)` and `txt(lit, ignore_case=True)`. */
  function Lit(lit: string, s: string, ignoreCase: bool): (r: Option<string>)
    ensures r.Some? ==> |s| >= |lit| && r.value == s[|lit|..]
  {
    if |s| >= |lit| && (if ignoreCase then LowerAll(s[..|lit|]) == LowerAll(lit) else s[..|lit|] == lit)
    then Some(s[|lit|..])
    else None
  }

  /** A keyword matches whatever the case of its letters in the input. */
  lemma {:induction false} KeywordIgnoresCase(lit: string, s: string, t: string)
    requires |s| == |t| && LowerAll(s) == LowerAll(t)
    ensures Lit(lit, s, true).Some? <==> Lit(lit, t, true).Some?
  {
    if |s| >= |lit| {
      assert LowerAll(s[..|lit|]) == LowerAll(s)[..|lit|];
      assert LowerAll(t[..|lit|]) == LowerAll(t)[..|lit|];
    }
  }

  // ---------------------------------------------------------------------
  // Unquoted strings: `unquoted_rex`

  /** `\s` of a regular expression compiled without the UNICODE flag. */
  predicate IsReSpace(c: char)
  {
    c == ' ' || c == '\t' || c == '\n' || c == '\r' || c == '\U{B}' || c == '\U{C}'
  }

  /** The characters `[^\s\\\(\)\"\*!=/]` of `unquoted_rex`. */
  predicate IsUnquotedChar(c: char)
  {
    !IsReSpace(c) && c != '\\' && c != '(' && c != ')' && c != '"' && c != '*' && c != '!' && c != '=' && c != '/'
  }

  /** Length of the maximal leading run of unquoted characters. */
  function UnquotedRun(s: string): (n: nat)
    ensures n <= |s|
    ensures forall i :: 0 <= i < n ==> IsUnquotedChar(s[i])
    ensures n == |s| || !IsUnquotedChar(s[n])
  {
    if s != [] && IsUnquotedChar(s[0]) then 1 + UnquotedRun(s[1..]) else 0
  }

  /** The whole of `v` is one match of `unquoted_rex`. */
  predicate IsUnquotedToken(v: string)
  {
    |v| > 0 && forall i :: 0 <= i < |v| ==> IsUnquotedChar(v[i])
  }

  // ---------------------------------------------------------------------
  // Quoted strings: `quoted_rex` followed by `json.loads`, and `json.dumps`

  function HexDigit(n: nat): char
    requires n < 16
  {
    if n < 10 then ('0' as int + n) as char else ('a' as int + n - 10) as char
  }

  function HexValue(c: char): (r: Option<nat>)
    ensures r.Some? ==> r.value < 16
  {
    if '0' <= c <= '9' then Some(c as int - '0' as int)
    else if 'a' <= c <= 'f' then Some(c as int - 'a' as int + 10)
    else if 'A' <= c <= 'F' then Some(c as int - 'A' as int + 10)
    else None
  }

  /** Four lower-case hex digits, as `json.dumps` writes a `\u` escape. */
  function Hex4(n: nat): string
    requires n < 0x1_0000
  {
    [HexDigit(n / 0x1000), HexDigit(n / 0x100 % 16), HexDigit(n / 16 % 16), HexDigit(n % 16)]
  }

  function ParseHex4(s: string): (r: Option<nat>)
    requires |s| == 4
    ensures r.Some? ==> r.value < 0x1_0000
  {
    match (HexValue(s[0]), HexValue(s[1]), HexValue(s[2]), HexValue(s[3]))
    case (Some(a), Some(b), Some(c), Some(d)) => Some(a * 0x1000 + b * 0x100 + c * 16 + d)
    case _ => None
  }

  lemma HexDigitValue(n: nat)
    requires n < 16
    ensures HexValue(HexDigit(n)) == Some(n)
  {
  }

  lemma {:induction false} Hex4RoundTrip(n: nat)
    requires n < 0x1_0000
    ensures ParseHex4(Hex4(n)) == Some(n)
  {
    var a, b, c, d := n / 0x1000, n / 0x100 % 16, n / 16 % 16, n % 16;
    HexDigitValue(a);
    HexDigitValue(b);
    HexDigitValue(c);
    HexDigitValue(d);
    var q := n / 16;
    assert n == q * 16 + d;
    assert q / 16 == n / 0x100;
    assert q == (q / 16) * 16 + c;
    var p := q / 16;
    assert p / 16 == n / 0x1000;
    assert p == (p / 16) * 16 + b;
    assert n == a * 0x1000 + b * 0x100 + c * 16 + d;
  }

  /** The escape `json.loads` accepts after a backslash, other than `\u`. */
  function SimpleEscape(c: char): Option<char>
  {
    if c == '"' then Some('"')
    else if c == '\\' then Some('\\')
    else if c == '/' then Some('/')
    else if c == 'b' then Some('\U{8}')
    else if c == 'f' then Some('\U{C}')
    else if c == 'n' then Some('\n')
    else if c == 'r' then Some('\r')
    else if c == 't' then Some('\t')
    else None
  }

  function Prepend(c: char, p: Parsed<string>): Parsed<string>
  {
    match p
    case Success(v, r) => Success([c] + v, r)
    case Fail => Fail
  }

  /**
   * The body of a quoted string up to its closing quote, decoded: the match of
   * `quoted_rex` read by `json.loads`. A raw control character (which
   * `json.loads` refuses) and an unpaired surrogate escape (which the wide-build
   * JSON scanner refuses) make the parse fail.
   */
  function DecodeBody(s: string): (r: Parsed<string>)
    ensures r.Success? ==> |r.rest| < |s|
    decreases |s|
  {
    if s == [] then Fail
    else if s[0] == '"' then Success([], s[1..])
    else if s[0] == '\\' then
      if |s| >= 2 && SimpleEscape(s[1]).Some? then
        Prepend(SimpleEscape(s[1]).value, DecodeBody(s[2..]))
      else if |s| >= 6 && s[1] == 'u' && ParseHex4(s[2..6]).Some? then
        var u := ParseHex4(s[2..6]).value;
        if 0xD800 <= u < 0xDC00 then
          if |s| >= 12 && s[6] == '\\' && s[7] == 'u' && ParseHex4(s[8..12]).Some?
             && 0xDC00 <= ParseHex4(s[8..12]).value < 0xE000
          then
            var lo := ParseHex4(s[8..12]).value;
            Prepend((0x1_0000 + (u - 0xD800) * 0x400 + (lo - 0xDC00)) as char, DecodeBody(s[12..]))
          else Fail
        else if 0xDC00 <= u < 0xE000 then Fail
        else Prepend(u as char, DecodeBody(s[6..]))
      else Fail
    else if s[0] < ' ' then Fail
    else Prepend(s[0], DecodeBody(s[1..]))
  }

  /** How `json.dumps` (ASCII output) writes one character. */
  function EscapeChar(c: char): string
  {
    if c == '"' then "\\\""
    else if c == '\\' then "\\\\"
    else if c == '\n' then "\\n"
    else if c == '\r' then "\\r"
    else if c == '\t' then "\\t"
    else if c == '\U{8}' then "\\b"
    else if c == '\U{C}' then "\\f"
    else if ' ' <= c <= '~' then [c]
    else if (c as int) < 0x1_0000 then "\\u" + Hex4(c as int)
    else
      var v := c as int - 0x1_0000;
      "\\u" + Hex4(0xD800 + v / 0x400) + "\\u" + Hex4(0xDC00 + v % 0x400)
  }

  function EscapeAll(v: string): string
  {
    if v == [] then [] else EscapeChar(v[0]) + EscapeAll(v[1..])
  }

  /** `json.dumps` of a string. */
  function JsonQuote(v: string): string
  {
    "\"" + EscapeAll(v) + "\""
  }

  /** The characters `json.dumps` writes as a backslash and one letter or symbol. */
  predicate IsShortEscaped(c: char)
  {
    c == '"' || c == '\\' || c == '\n' || c == '\r' || c == '\t' || c == '\U{8}' || c == '\U{C}'
  }

  lemma DecodeShortEscape(c: char, t: string)
    requires IsShortEscaped(c)
    ensures DecodeBody(EscapeChar(c) + t) == Prepend(c, DecodeBody(t))
  {
    var s := EscapeChar(c) + t;
    assert |EscapeChar(c)| == 2 && s[0] == '\\' && SimpleEscape(s[1]) == Some(c);
    assert s[2..] == t;
  }

  lemma DecodeBmpEscape(c: char, t: string)
    requires !IsShortEscaped(c) && !(' ' <= c <= '~') && (c as int) < 0x1_0000
    ensures DecodeBody(EscapeChar(c) + t) == Prepend(c, DecodeBody(t))
  {
    var s := EscapeChar(c) + t;
    assert EscapeChar(c) == "\\u" + Hex4(c as int);
    Hex4RoundTrip(c as int);
    assert s[0] == '\\' && s[1] == 'u' && s[2..6] == Hex4(c as int);
    assert s[6..] == t;
  }

  lemma DecodeAstralEscape(c: char, t: string)
    requires (c as int) >= 0x1_0000
    ensures DecodeBody(EscapeChar(c) + t) == Prepend(c, DecodeBody(t))
  {
    var v := c as int - 0x1_0000;
    var hi, lo := 0xD800 + v / 0x400, 0xDC00 + v % 0x400;
    SurrogatesRecombine(c);
    assert EscapeChar(c) == "\\u" + Hex4(hi) + "\\u" + Hex4(lo);
    DecodeSurrogatePair(hi, lo, t);
  }

  /** The surrogate pair `json.dumps` writes for a character outside the basic plane names that character again. */
  lemma SurrogatesRecombine(c: char)
    requires (c as int) >= 0x1_0000
    ensures var v := c as int - 0x1_0000;
            var hi, lo := 0xD800 + v / 0x400, 0xDC00 + v % 0x400;
            0xD800 <= hi < 0xDC00 && 0xDC00 <= lo < 0xE000
            && 0x1_0000 + (hi - 0xD800) * 0x400 + (lo - 0xDC00) == c as int
  {
  }

  /** Two `\u` escapes forming a surrogate pair decode to one character. */
  lemma DecodeSurrogatePair(hi: int, lo: int, t: string)
    requires 0xD800 <= hi < 0xDC00 && 0xDC00 <= lo < 0xE000
    ensures DecodeBody("\\u" + Hex4(hi) + "\\u" + Hex4(lo) + t)
            == Prepend((0x1_0000 + (hi - 0xD800) * 0x400 + (lo - 0xDC00)) as char, DecodeBody(t))
  {
    var s := "\\u" + Hex4(hi) + "\\u" + Hex4(lo) + t;
    Hex4RoundTrip(hi);
    Hex4RoundTrip(lo);
    assert s[0] == '\\' && s[1] == 'u' && s[2..6] == Hex4(hi);
    assert s[6] == '\\' && s[7] == 'u' && s[8..12] == Hex4(lo);
    assert s[12..] == t;
  }

  lemma DecodeEscapedChar(c: char, t: string)
    ensures DecodeBody(EscapeChar(c) + t) == Prepend(c, DecodeBody(t))
  {
    if IsShortEscaped(c) {
      DecodeShortEscape(c, t);
    } else if ' ' <= c <= '~' {
      var s := EscapeChar(c) + t;
      assert EscapeChar(c) == [c];
      assert s[0] == c && s[1..] == t;
    } else if (c as int) < 0x1_0000 {
      DecodeBmpEscape(c, t);
    } else {
      DecodeAstralEscape(c, t);
    }
  }

  /** `json.loads` reads back exactly what `json.dumps` wrote, and stops at the closing quote. */
  lemma {:induction false} DecodeEscapeAll(v: string, rest: string)
    ensures DecodeBody(EscapeAll(v) + "\"" + rest) == Success(v, rest)
  {
    if v == [] {
      assert EscapeAll(v) + "\"" + rest == "\"" + rest;
      assert ("\"" + rest)[1..] == rest;
    } else {
      assert EscapeAll(v) + "\"" + rest == EscapeChar(v[0]) + (EscapeAll(v[1..]) + "\"" + rest);
      DecodeEscapedChar(v[0], EscapeAll(v[1..]) + "\"" + rest);
      DecodeEscapeAll(v[1..], rest);
      assert [v[0]] + v[1..] == v;
    }
  }

  // ---------------------------------------------------------------------
  // The string atom

  /** `string_parser`: a JSON string if the text starts with a quote, else an unquoted token. */
  function StringP(s: string): (r: Parsed<Atom>)
    ensures r.Success? ==> r.value.String? && |r.rest| < |s|
  {
    if s == [] then Fail
    else if s[0] == '"' then
      match DecodeBody(s[1..])
      case Success(v, rest) => Success(String(v), rest)
      case Fail => Fail
    else
      var n := UnquotedRun(s);
      if n == 0 then Fail else Success(String(s[..n]), s[n..])
  }

  /** `format_string` as written: bare text iff it is one unquoted token, else `json.dumps`. */
  function FormatStringAsWritten(v: string): string
  {
    if IsUnquotedToken(v) then v else JsonQuote(v)
  }

  /**
   * The unquoted text reads back as something other than a string wherever a
   * rule may start with it: the keyword `no`, or a text that begins with an IP literal.
   */
  predicate ReadsAsOther(v: string)
  {
    LowerAll(v) == "no" || IpP(v).Success?
  }

  /** `format_string` with the quoting the grammar needs: such texts are quoted too. */
  function FormatString(v: string): string
  {
    if IsUnquotedToken(v) && !ReadsAsOther(v) then v else JsonQuote(v)
  }

  /** `format_string` prints `v` bare, and where a rule may start the grammar reads that text as something other than a string. */
  predicate BareReadsAsOther(v: string)
  {
    IsUnquotedToken(v) && ReadsAsOther(v)
  }

  /** The two quotings print the same text for every string except those. */
  lemma QuotingsAgree(v: string)
    ensures FormatStringAsWritten(v) == FormatString(v) <==> !BareReadsAsOther(v)
  {
    if BareReadsAsOther(v) {
      assert FormatString(v)[0] == '"' && IsUnquotedChar(v[0]);
    }
  }

  lemma {:induction false} UnquotedRunOfToken(v: string, rest: string)
    requires IsUnquotedToken(v)
    requires rest == [] || !IsUnquotedChar(rest[0])
    ensures UnquotedRun(v + rest) == |v|
    decreases |v|
  {
    if |v| > 1 {
      assert (v + rest)[1..] == v[1..] + rest;
      UnquotedRunOfToken(v[1..], rest);
    } else {
      assert (v + rest)[1..] == rest;
    }
  }

  /** Reading an unquoted token stops exactly where a non-token character follows. */
  lemma UnquotedRoundTrip(v: string, rest: string)
    requires IsUnquotedToken(v)
    requires rest == [] || !IsUnquotedChar(rest[0])
    ensures StringP(v + rest) == Success(String(v), rest)
  {
    UnquotedRunOfToken(v, rest);
    assert (v + rest)[..|v|] == v && (v + rest)[|v|..] == rest;
  }

  /** A quoted string reads back as the value that was quoted, whatever follows it. */
  lemma QuotedRoundTrip(v: string, rest: string)
    ensures StringP(JsonQuote(v) + rest) == Success(String(v), rest)
  {
    DecodeEscapeAll(v, rest);
    var body := EscapeAll(v) + "\"" + rest;
    Regroup("\"", EscapeAll(v), "\"");
    Regroup("\"", EscapeAll(v) + "\"", rest);
    assert JsonQuote(v) + rest == "\"" + body;
    assert ("\"" + body)[1..] == body;
  }

  /**
   * `string_parser` reads the printed form of a string back to the same string,
   * provided what follows cannot extend an unquoted token.
   */
  lemma StringRoundTrip(v: string, rest: string)
    requires rest == [] || !IsUnquotedChar(rest[0])
    ensures StringP(FormatString(v) + rest) == Success(String(v), rest)
    ensures StringP(FormatStringAsWritten(v) + rest) == Success(String(v), rest)
  {
    if IsUnquotedToken(v) {
      UnquotedRoundTrip(v, rest);
    }
    QuotedRoundTrip(v, rest);
  }

  // ---------------------------------------------------------------------
  // The wildcard atom

  /** `star_parser`. */
  function StarP(s: string): (r: Parsed<Atom>)
    ensures r.Success? <==> s != [] && s[0] == '*'
    ensures r.Success? ==> r.value == Star && r.rest == s[1..]
  {
    if s != [] && s[0] == '*' then Success(Star, s[1..]) else Fail
  }

  // ---------------------------------------------------------------------
  // Regular expressions: `regexp_parser` and `format_regexp`

  /**
   * The body of `/((?:\\.|[^\\/])*)/`: escaped characters other than a line feed,
   * or any character but a backslash or a slash, up to the closing slash.
   * Answers the body verbatim and the text after the closing slash.
   */
  function RegexpBody(s: string): (r: Option<(string, string)>)
    ensures r.Some? ==> |r.value.1| < |s|
  {
    if s == [] then None
    else if s[0] == '/' then Some(([], s[1..]))
    else if s[0] == '\\' then
      if |s| >= 2 && s[1] != '\n' then
        match RegexpBody(s[2..])
        case Some((p, t)) => Some((s[..2] + p, t))
        case None => None
      else None
    else
      match RegexpBody(s[1..])
      case Some((p, t)) => Some(([s[0]] + p, t))
      case None => None
  }

  /** `regexp_parser`: `/pattern/` with an optional `i` flag; the pattern is kept verbatim. */
  function RegexpP(s: string): (r: Parsed<Atom>)
    ensures r.Success? ==> r.value.RegExp? && |r.rest| < |s| && s[0] == '/'
  {
    if s == [] || s[0] != '/' then Fail
    else
      match RegexpBody(s[1..])
      case None => Fail
      case Some((p, t)) =>
        if t != [] && t[0] == 'i' then Success(RegExp(p, true), t[1..]) else Success(RegExp(p, false), t)
  }

  /** Every backslash of the pattern escapes a following character other than a line feed. */
  predicate ValidPattern(p: string)
  {
    if p == [] then true
    else if p[0] == '\\' then |p| >= 2 && p[1] != '\n' && ValidPattern(p[2..])
    else ValidPattern(p[1..])
  }

  predicate SlashFree(p: string)
  {
    forall i :: 0 <= i < |p| ==> p[i] != '/'
  }

  /** Escapes every slash that is not escaped already: the intent of `escape_slash_rex`. */
  function EscapeSlashes(p: string): string
  {
    if p == [] then []
    else if p[0] == '\\' && |p| >= 2 then p[..2] + EscapeSlashes(p[2..])
    else if p[0] == '/' then "\\/" + EscapeSlashes(p[1..])
    else [p[0]] + EscapeSlashes(p[1..])
  }

  /** `format_regexp` with the slash escaping as intended. */
  function FormatRegexp(pattern: string, ignoreCase: bool): string
  {
    "/" + EscapeSlashes(pattern) + "/" + (if ignoreCase then "i" else "")
  }

  /** Number of consecutive backslashes from index `j` on. */
  function BackslashRun(s: string, j: nat): (n: nat)
    ensures j + n <= |s| || (j >= |s| && n == 0)
    ensures forall i :: j <= i < j + n ==> s[i] == '\\'
    ensures j + n >= |s| || s[j + n] != '\\'
    decreases |s| - j
  {
    if j < |s| && s[j] == '\\' then 1 + BackslashRun(s, j + 1) else 0
  }

  /** Number of consecutive slashes from index `j` on. */
  function SlashRun(s: string, j: nat): (n: nat)
    ensures j + n <= |s| || (j >= |s| && n == 0)
    ensures forall i :: j <= i < j + n ==> s[i] == '/'
    decreases |s| - j
  {
    if j < |s| && s[j] == '/' then 1 + SlashRun(s, j + 1) else 0
  }

  /**
   * A match of `escape_slash_rex` that starts at index `j`: the start of its slash
   * group and the end of the match. Its first group is either the start of the
   * text or one character other than a backslash, then the fewest backslash
   * pairs that reach a slash; its second group is the whole run of slashes.
   */
  function EscapeMatchAt(s: string, j: nat): (m: Option<(nat, nat)>)
    ensures m.Some? ==> j <= m.value.0 < m.value.1 <= |s|
  {
    var lead := BackslashRun(s, 0);
    var run := BackslashRun(s, j + 1);
    if j == 0 && lead % 2 == 0 && lead < |s| && s[lead] == '/' then
      Some((lead, lead + SlashRun(s, lead)))
    else if j < |s| && s[j] != '\\' && run % 2 == 0 && j + 1 + run < |s| && s[j + 1 + run] == '/' then
      Some((j + 1 + run, j + 1 + run + SlashRun(s, j + 1 + run)))
    else None
  }

  function EscapedSlashes(n: nat): string
  {
    if n == 0 then [] else "\\/" + EscapedSlashes(n - 1)
  }

  /** `re.sub` of `escape_slash_rex` from index `i` on: matches are searched left to right and do not overlap. */
  function SubFrom(s: string, i: nat): string
    decreases |s| - i
  {
    if i >= |s| then []
    else
      match EscapeMatchAt(s, i)
      case Some((g, e)) => s[i..g] + EscapedSlashes(e - g) + SubFrom(s, e)
      case None => [s[i]] + SubFrom(s, i + 1)
  }

  /** The slash escaping of `format_regexp` as written. */
  function EscapeSlashesAsWritten(p: string): string
  {
    SubFrom(p, 0)
  }

  /** `format_regexp` as written. */
  function FormatRegexpAsWritten(pattern: string, ignoreCase: bool): string
  {
    "/" + EscapeSlashesAsWritten(pattern) + "/" + (if ignoreCase then "i" else "")
  }

  /** `re.sub` leaves the second slash of `/\\/` unescaped. */
  lemma EscapeSlashesAsWrittenExample()
    ensures EscapeSlashesAsWritten("/\\\\/") == "\\/\\\\/"
  {
    var p := "/\\\\/";
    assert BackslashRun(p, 0) == 0 && SlashRun(p, 1) == 0;
    assert EscapeMatchAt(p, 0) == Some((0, 1));
    assert BackslashRun(p, 1) == 2 && BackslashRun(p, 2) == 1 && BackslashRun(p, 4) == 0;
    assert EscapeMatchAt(p, 1) == None && EscapeMatchAt(p, 2) == None && EscapeMatchAt(p, 3) == None;
    assert SubFrom(p, 3) == "/";
    assert SubFrom(p, 1) == "\\\\/";
  }

  lemma MissedSlashBody()
    ensures RegexpBody("\\/\\\\/" + "/") == Some(("\\/\\\\", "/"))
  {
    var s := "\\/\\\\/" + "/";
    assert s[0] == '\\' && s[1] == '/' && s[2] == '\\' && s[3] == '\\';
    assert s[4..][1..] == "/" && s[4..][0] == '/';
    assert RegexpBody(s[4..]) == Some(([], "/"));
    assert s[2..][2..] == s[4..] && s[2..][..2] + [] == "\\\\";
    assert RegexpBody(s[2..]) == Some(("\\\\", "/"));
    assert s[..2] + "\\\\" == "\\/\\\\";
  }

  /**
   * The pattern `/\\/` (a slash, an escaped backslash, a slash) is valid, but its
   * printed form as written ends early when read back, leaving a slash unread:
   * the match that escaped the first slash consumed the character the second
   * slash needs before its backslash pair.
   */
  lemma EscapeSlashesAsWrittenMissesSlash()
    ensures ValidPattern("/\\\\/")
    ensures RegexpP(FormatRegexpAsWritten("/\\\\/", false)) == Success(RegExp("\\/\\\\", false), "/")
  {
    SlashBackslashSlashIsValid();
    PrintedMissedSlash();
    MissedSlashBody();
    var body := "\\/\\\\/" + "/";
    assert ("/" + body)[0] == '/' && ("/" + body)[1..] == body;
  }

  lemma SlashBackslashSlashIsValid()
    ensures ValidPattern("/\\\\/")
  {
    var p := "/\\\\/";
    assert p[1..][2..] == "/" && p[1..][0] == '\\';
  }

  lemma PrintedMissedSlash()
    ensures FormatRegexpAsWritten("/\\\\/", false) == "/" + ("\\/\\\\/" + "/")
  {
    var e := EscapeSlashesAsWritten("/\\\\/");
    EscapeSlashesAsWrittenExample();
    assert FormatRegexpAsWritten("/\\\\/", false) == "/" + e + "/" + "";
    Regroup("/" + e + "/", "", "");
    Regroup("/", e, "/");
  }

  /** The intended escaping of the same pattern is read back whole. */
  lemma EscapeSlashesMissesNothing()
    ensures RegexpP(FormatRegexp("/\\\\/", false)) == Success(RegExp("\\/\\\\\\/", false), [])
  {
    var p := "/\\\\/";
    assert EscapeSlashes(p[3..]) == "\\/";
    assert EscapeSlashes(p[1..]) == "\\\\\\/";
    assert EscapeSlashes(p) == "\\/\\\\\\/";
    RegexpRoundTrip(p, false, []);
    assert FormatRegexp(p, false) + [] == FormatRegexp(p, false);
  }

  /**
   * `format_regexp` as written prints a valid pattern whose slashes are escaped
   * already so that `regexp_parser` reads it back as itself, with its flag.
   */
  lemma RegexpAsWrittenRoundTrip(p: string, ignoreCase: bool, rest: string)
    requires ValidPattern(p) && EscapeSlashes(p) == p
    requires !ignoreCase ==> rest == [] || rest[0] != 'i'
    ensures RegexpP(FormatRegexpAsWritten(p, ignoreCase) + rest) == Success(RegExp(p, ignoreCase), rest)
  {
    EscapedAsWritten(p, ignoreCase);
    RegexpRoundTrip(p, ignoreCase, rest);
  }

  /** A single slash between ordinary characters is escaped, as written and as intended. */
  lemma EscapeSlashExample()
    ensures EscapeSlashesAsWritten("a/b") == "a\\/b"
    ensures EscapeSlashes("a/b") == "a\\/b"
    ensures FormatRegexp("a/b", false) == "/a\\/b/"
  {
    var p := "a/b";
    assert EscapeMatchAt(p, 0) == Some((1, 2));
    assert EscapeMatchAt(p, 2) == None;
  }

  /** Escaping changes nothing in a pattern without slashes. */
  lemma {:induction false} EscapeSlashFree(p: string)
    requires SlashFree(p)
    ensures EscapeSlashes(p) == p
  {
    if p == [] {
    } else if p[0] == '\\' && |p| >= 2 {
      EscapeSlashFree(p[2..]);
      assert p[..2] + p[2..] == p;
    } else {
      EscapeSlashFree(p[1..]);
      assert [p[0]] + p[1..] == p;
    }
  }

  /** Escaping again changes nothing: printing a regexp read back from print is stable. */
  lemma {:induction false} EscapeSlashesIdempotent(p: string)
    ensures EscapeSlashes(EscapeSlashes(p)) == EscapeSlashes(p)
  {
    var e := EscapeSlashes(p);
    if p == [] {
    } else if p[0] == '\\' && |p| >= 2 {
      EscapeSlashesIdempotent(p[2..]);
      assert e[..2] == p[..2] && e[2..] == EscapeSlashes(p[2..]);
    } else if p[0] == '/' {
      EscapeSlashesIdempotent(p[1..]);
      assert e[..2] == "\\/" && e[2..] == EscapeSlashes(p[1..]);
    } else {
      EscapeSlashesIdempotent(p[1..]);
      assert e[1..] == EscapeSlashes(p[1..]);
      if |p| == 1 && p[0] == '\\' {
        assert e == "\\";
      }
    }
  }

  /**
   * The slashes of `p` from index `k` on are escaped already: each backslash
   * pairs with the character after it, and no slash stands on its own.
   */
  predicate EscapedFrom(p: string, k: nat)
    decreases |p| - k
  {
    if k >= |p| then true
    else if p[k] == '\\' then k + 1 == |p| || EscapedFrom(p, k + 2)
    else p[k] != '/' && EscapedFrom(p, k + 1)
  }

  lemma {:induction false} FixedIsEscaped(p: string, k: nat)
    requires k <= |p|
    ensures EscapeSlashes(p[k..]) == p[k..] ==> EscapedFrom(p, k)
    decreases |p| - k
  {
    if k < |p| {
      var q := p[k..];
      if q[0] == '\\' && |q| >= 2 {
        assert q[2..] == p[k + 2..];
        assert (q[..2] + EscapeSlashes(q[2..]))[2..] == EscapeSlashes(q[2..]);
        FixedIsEscaped(p, k + 2);
      } else if q[0] == '/' {
        assert EscapeSlashes(q)[0] != q[0];
      } else if q[0] != '\\' {
        assert q[1..] == p[k + 1..];
        assert ([q[0]] + EscapeSlashes(q[1..]))[1..] == EscapeSlashes(q[1..]);
        FixedIsEscaped(p, k + 1);
      }
    }
  }

  /** An even run of backslashes is a run of escape pairs. */
  lemma {:induction false} EvenRun(p: string, k: nat, n: nat)
    requires EscapedFrom(p, k) && n % 2 == 0 && k + n <= |p|
    requires forall i :: k <= i < k + n ==> p[i] == '\\'
    ensures EscapedFrom(p, k + n)
    decreases n
  {
    if n > 0 {
      assert p[k] == '\\' && p[k + 1] == '\\';
      EvenRun(p, k + 2, n - 2);
    }
  }

  /** A character other than a backslash ends an escape pair or stands alone: an escape pair never starts after it. */
  lemma {:induction false} PairBoundary(p: string, k: nat, j: nat)
    requires EscapedFrom(p, k) && k <= j < |p| && p[j] != '\\'
    ensures EscapedFrom(p, j + 1)
    decreases j - k
  {
    if p[k] == '\\' {
      if k + 2 <= j {
        PairBoundary(p, k + 2, j);
      }
    } else if k < j {
      PairBoundary(p, k + 1, j);
    }
  }

  /** `escape_slash_rex` matches nowhere in a pattern whose slashes are escaped already. */
  lemma NoEscapeMatch(p: string, j: nat)
    requires EscapedFrom(p, 0)
    ensures EscapeMatchAt(p, j) == None
  {
    var lead := BackslashRun(p, 0);
    if lead % 2 == 0 && lead < |p| {
      EvenRun(p, 0, lead);
    }
    var run := BackslashRun(p, j + 1);
    if j < |p| && p[j] != '\\' && run % 2 == 0 && j + 1 + run < |p| {
      PairBoundary(p, 0, j);
      EvenRun(p, j + 1, run);
    }
  }

  lemma {:induction false} SubFromEscaped(p: string, i: nat)
    requires EscapedFrom(p, 0) && i <= |p|
    ensures SubFrom(p, i) == p[i..]
    decreases |p| - i
  {
    if i < |p| {
      NoEscapeMatch(p, i);
      SubFromEscaped(p, i + 1);
      assert [p[i]] + p[i + 1..] == p[i..];
    }
  }

  /** A pattern whose slashes are escaped already is left as it is by both escapings, so both printers agree on it. */
  lemma EscapedAsWritten(p: string, ignoreCase: bool)
    requires EscapeSlashes(p) == p
    ensures EscapeSlashesAsWritten(p) == p
    ensures FormatRegexpAsWritten(p, ignoreCase) == FormatRegexp(p, ignoreCase)
  {
    assert p[0..] == p;
    FixedIsEscaped(p, 0);
    SubFromEscaped(p, 0);
  }

  /** The matches of `escape_slash_rex` in `\/\\/`: one, at its last slash. */
  lemma SecondPassMatches()
    ensures EscapeMatchAt("\\/\\\\/", 0) == None
    ensures EscapeMatchAt("\\/\\\\/", 1) == Some((4, 5))
  {
    var p := "\\/\\\\/";
    assert BackslashRun(p, 1) == 0;
    assert BackslashRun(p, 0) == 1;
    assert BackslashRun(p, 4) == 0;
    assert BackslashRun(p, 3) == 1;
    assert BackslashRun(p, 2) == 2;
    assert SlashRun(p, 5) == 0;
    assert SlashRun(p, 4) == 1;
  }

  lemma SecondPassTail()
    ensures SubFrom("\\/\\\\/", 1) == "/\\\\\\/"
  {
    var p := "\\/\\\\/";
    SecondPassMatches();
    assert SubFrom(p, 5) == [];
    assert EscapedSlashes(1) == "\\/";
    assert p[1..4] == "/\\\\";
  }

  lemma SecondPass()
    ensures SubFrom("\\/\\\\/", 0) == "\\/\\\\\\/"
  {
    var p := "\\/\\\\/";
    SecondPassMatches();
    SecondPassTail();
    assert SubFrom(p, 0) == [p[0]] + SubFrom(p, 1);
  }

  /** `re.sub` as written escapes, on a second pass, the slash its first pass over `/\\/` left alone: it is not idempotent. */
  lemma EscapeSlashesAsWrittenNotIdempotent()
    ensures EscapeSlashesAsWritten("/\\\\/") == "\\/\\\\/"
    ensures EscapeSlashesAsWritten("\\/\\\\/") == "\\/\\\\\\/"
  {
    EscapeSlashesAsWrittenExample();
    SecondPass();
  }

  /** The escaped body of a valid pattern is read up to exactly the closing slash. */
  lemma {:induction false} RegexpBodyOfEscaped(p: string, t: string)
    requires ValidPattern(p)
    ensures RegexpBody(EscapeSlashes(p) + "/" + t) == Some((EscapeSlashes(p), t))
  {
    var s := EscapeSlashes(p) + "/" + t;
    if p == [] {
      assert s == "/" + t && s[1..] == t;
    } else if p[0] == '\\' {
      RegexpBodyOfEscaped(p[2..], t);
      assert s[..2] == p[..2] && s[2..] == EscapeSlashes(p[2..]) + "/" + t;
      assert s[..2] + EscapeSlashes(p[2..]) == EscapeSlashes(p);
    } else if p[0] == '/' {
      RegexpBodyOfEscaped(p[1..], t);
      assert s[..2] == "\\/" && s[2..] == EscapeSlashes(p[1..]) + "/" + t;
      assert s[..2] + EscapeSlashes(p[1..]) == EscapeSlashes(p);
    } else {
      RegexpBodyOfEscaped(p[1..], t);
      assert s[1..] == EscapeSlashes(p[1..]) + "/" + t;
    }
  }

  /**
   * `regexp_parser` reads the printed form of a regexp back entirely: the same flag,
   * and the pattern with its slashes escaped, which for a slash-free pattern is
   * the pattern itself.
   */
  lemma RegexpRoundTrip(p: string, ignoreCase: bool, rest: string)
    requires ValidPattern(p)
    requires !ignoreCase ==> rest == [] || rest[0] != 'i'
    ensures RegexpP(FormatRegexp(p, ignoreCase) + rest) == Success(RegExp(EscapeSlashes(p), ignoreCase), rest)
    ensures SlashFree(p) ==> RegexpP(FormatRegexp(p, ignoreCase) + rest) == Success(RegExp(p, ignoreCase), rest)
  {
    var body := EscapeSlashes(p);
    if ignoreCase {
      RegexpBodyOfEscaped(p, "i" + rest);
      RegexpOfBodyIgnoringCase(body, rest);
      assert FormatRegexp(p, ignoreCase) + rest == "/" + body + "/" + "i" + rest;
    } else {
      RegexpBodyOfEscaped(p, rest);
      RegexpOfBodyKeepingCase(body, rest);
      assert FormatRegexp(p, ignoreCase) + rest == "/" + body + "/" + rest;
    }
    if SlashFree(p) {
      EscapeSlashFree(p);
    }
  }

  /** A body that is read up to its closing slash, then the `i` flag, make a case-insensitive RegExp atom. */
  lemma RegexpOfBodyIgnoringCase(body: string, rest: string)
    requires RegexpBody(body + "/" + ("i" + rest)) == Some((body, "i" + rest))
    ensures RegexpP("/" + body + "/" + "i" + rest) == Success(RegExp(body, true), rest)
  {
    var s := "/" + body + "/" + "i" + rest;
    assert s == "/" + (body + "/" + ("i" + rest));
    assert s[1..] == body + "/" + ("i" + rest);
    assert ("i" + rest)[1..] == rest;
  }

  /** A body that is read up to its closing slash, with no `i` after it, makes a case-sensitive RegExp atom. */
  lemma RegexpOfBodyKeepingCase(body: string, rest: string)
    requires rest == [] || rest[0] != 'i'
    requires RegexpBody(body + "/" + rest) == Some((body, rest))
    ensures RegexpP("/" + body + "/" + rest) == Success(RegExp(body, false), rest)
  {
    var s := "/" + body + "/" + rest;
    assert s == "/" + (body + "/" + rest);
    assert s[1..] == body + "/" + rest;
    assert !(rest != [] && rest[0] == 'i');
  }

  // ---------------------------------------------------------------------
  // IP literals

  predicate IsDigit(c: char)
  {
    '0' <= c <= '9'
  }

  /** The characters of an IPv4 address, CIDR block or explicit range. */
  predicate IsIpChar(c: char)
  {
    IsDigit(c) || c == '.' || c == '/' || c == '-'
  }

  function IpRun(s: string): (n: nat)
    ensures n <= |s|
    ensures forall i :: 0 <= i < n ==> IsIpChar(s[i])
    ensures n == |s| || !IsIpChar(s[n])
  {
    if s != [] && IsIpChar(s[0]) then 1 + IpRun(s[1..]) else 0
  }

  /** A complete IP literal of the stand-in grammar. */
  predicate IsIpText(t: string)
  {
    |t| > 0 && IsDigit(t[0]) && '.' in t && forall i :: 0 <= i < |t| ==> IsIpChar(t[i])
  }

  /**
   * `ip_parser`: the address-range grammar is not part of this model; its stand-in
   * reads the maximal run of address characters that starts with a digit and
   * contains a dot, and keeps that text as the range.
   */
  function IpP(s: string): (r: Parsed<Atom>)
    ensures r.Success? ==> r.value.IP? && IsIpText(r.value.range) && |r.rest| < |s|
  {
    var n := IpRun(s);
    if n > 0 && IsDigit(s[0]) && '.' in s[..n] then Success(IP(s[..n]), s[n..]) else Fail
  }

  lemma {:induction false} IpRunAppend(t: string, rest: string)
    requires forall i :: 0 <= i < |t| ==> IsIpChar(t[i])
    requires rest == [] || !IsIpChar(rest[0])
    ensures IpRun(t + rest) == |t|
  {
    if t != [] {
      assert (t + rest)[1..] == t[1..] + rest;
      IpRunAppend(t[1..], rest);
    }
  }

  /** An IP literal is read back as itself when no address character follows it. */
  lemma IpRoundTrip(t: string, rest: string)
    requires IsIpText(t)
    requires rest == [] || !IsIpChar(rest[0])
    ensures IpP(t + rest) == Success(IP(t), rest)
  {
    IpRunAppend(t, rest);
    assert (t + rest)[..|t|] == t && (t + rest)[|t|..] == rest;
  }

  /** Whether `ip_parser` accepts a text does not change when a non-address character follows it. */
  lemma IpPrefixStable(v: string, rest: string)
    requires rest == [] || !IsIpChar(rest[0])
    ensures IpP(v + rest).Success? <==> IpP(v).Success?
  {
    var n := IpRun(v);
    var m := IpRun(v + rest);
    if n == |v| {
      IpRunAppend(v, rest);
    } else {
      IpRunAppend(v[..n], v[n..] + rest);
      assert v[..n] + (v[n..] + rest) == v + rest;
    }
    assert (v + rest)[..m] == v[..n];
  }
}
