/**
 * Printing and reading back: the text `format` prints for a rule is read by
 * `parse` as the same rule, for the rules whose printed form the grammar can
 * read: string or `*` keys, fuzzy atoms other than `*`, regexp patterns whose
 * slashes are escaped already, and `And`/`Or` with at least two subrules. A key
 * or fuzzy string that `format_string` prints bare must not read as something
 * else where a rule starts (the word `no`, or an address).
 *
 * Every lemma follows the text the formatter prints through the grammar
 * functions of abusehelper/core/rules/rulelang.py, whatever order the subrules
 * of an `And`/`Or` are printed in.
 */
module RoundTrip {
  import opened Wrappers
  import opened Text
  import opened Rules
  import opened Lexer
  import opened Grammar
  import opened Formatter

  // ---------------------------------------------------------------------
  // The rules whose printed form reads back

  /** A string that may start a printed rule: `format_string` does not print it bare as a word the grammar takes for something else. */
  predicate PrintableLead(a: Atom)
  {
    a.String? ==> !BareReadsAsOther(a.value)
  }

  predicate PrintableKey(a: Atom)
  {
    (a.String? || a.Star?) && PrintableLead(a)
  }

  predicate PrintableValue(a: Atom)
  {
    match a
    case RegExp(p, _) => ValidPattern(p) && EscapeSlashes(p) == p
    case IP(range) => IsIpText(range)
    case _ => true
  }

  predicate Printable(r: Rule)
  {
    match r
    case Match(k, v) => PrintableKey(k) && PrintableValue(v)
    case NonMatch(k, v) => PrintableKey(k) && PrintableValue(v)
    case Fuzzy(a) => !a.Star? && PrintableValue(a) && PrintableLead(a)
    case And(s) => |s| >= 2 && forall x :: x in s ==> Printable(x)
    case Or(s) => |s| >= 2 && forall x :: x in s ==> Printable(x)
    case No(x) => Printable(x)
  }

  /** What may follow a rule's text inside a larger one: nothing, or a closing parenthesis. */
  predicate Closes(rest: string)
  {
    rest == [] || rest[0] == ')'
  }

  // ---------------------------------------------------------------------
  // Literal text

  lemma LitPrefix(lit: string, t: string, ignoreCase: bool)
    ensures Lit(lit, lit + t, ignoreCase) == Some(t)
  {
    assert (lit + t)[..|lit|] == lit && (lit + t)[|lit|..] == t;
  }

  /** A literal does not match where one of its characters differs, whatever the case. */
  lemma LitMismatch(lit: string, s: string, i: nat, ignoreCase: bool)
    requires i < |lit| && (i >= |s| || Lower(s[i]) != Lower(lit[i]))
    ensures Lit(lit, s, ignoreCase) == None
  {
    if |s| >= |lit| {
      assert LowerAll(s[..|lit|])[i] != LowerAll(lit)[i];
      assert s[..|lit|][i] != lit[i];
    }
  }

  lemma SkipNone(s: string)
    requires s == [] || !IsWs(s[0])
    ensures SkipWs(s) == s && Ws(s) == None
  {
  }

  lemma SkipOne(c: char, s: string)
    requires IsWs(c) && (s == [] || !IsWs(s[0]))
    ensures SkipWs([c] + s) == s && Ws([c] + s) == Some(s)
  {
    assert ([c] + s)[1..] == s;
  }

  // ---------------------------------------------------------------------
  // Atoms

  /** A printed value never starts with whitespace, a parenthesis, `=` or `!`; only a string may start with `n`. */
  lemma AtomTextStart(a: Atom)
    requires PrintableValue(a)
    ensures |AtomText(a)| > 0
    ensures !IsWs(AtomText(a)[0]) && AtomText(a)[0] != '(' && AtomText(a)[0] != ')'
    ensures AtomText(a)[0] != '=' && AtomText(a)[0] != '!'
    ensures a.String? ==> AtomText(a)[0] == '"' || IsUnquotedChar(AtomText(a)[0])
    ensures !a.String? ==> Lower(AtomText(a)[0]) != 'n'
  {
    match a
    case String(v) =>
      if !IsUnquotedToken(v) {
        assert FormatStringAsWritten(v)[0] == '"';
      }
    case RegExp(p, ic) =>
      assert FormatRegexpAsWritten(p, ic)[0] == '/';
    case IP(range) =>
    case Star =>
  }

  /** A printed string is never taken for an IP literal. */
  lemma StringTextNotIp(v: string, t: string)
    requires t == [] || !IsIpChar(t[0])
    ensures IpP(FormatString(v) + t) == Fail
  {
    if IsUnquotedToken(v) && !ReadsAsOther(v) {
      IpPrefixStable(v, t);
    } else {
      assert (FormatString(v) + t)[0] == '"';
    }
  }

  /** A printed value other than an IP literal reads back as `value_parser` answers it. */
  lemma ValueRoundTrip(v: Atom, rest: string)
    requires PrintableValue(v) && !v.IP? && Closes(rest)
    ensures ValueAtom(AtomText(v) + rest) == Success(v, rest)
  {
    var s := AtomText(v) + rest;
    AtomTextStart(v);
    assert s[0] == AtomText(v)[0];
    match v
    case Star =>
      assert s[1..] == rest;
    case RegExp(p, ic) =>
      RegexpAsWrittenRoundTrip(p, ic, rest);
    case String(w) =>
      StringRoundTrip(w, rest);
  }

  lemma InSteps(range: string, rest: string)
    requires range != [] && !IsWs(range[0])
    ensures Ws(" in " + range + rest) == Some("in " + range + rest)
    ensures Lit("in", "in " + range + rest, true) == Some(" " + range + rest)
    ensures Ws(" " + range + rest) == Some(range + rest)
  {
    SpaceThenWord("in", " " + range + rest);
    assert " in " + range + rest == " " + "in" + (" " + range + rest);
    assert "in" + (" " + range + rest) == "in " + range + rest;
    LitPrefix("in", " " + range + rest, true);
    SpaceThenWord(range, rest);
    assert " " + range + rest == " " + range + rest;
  }

  lemma InIpRoundTrip(range: string, rest: string)
    requires IsIpText(range) && Closes(rest)
    ensures InIp(" in " + range + rest) == Success(IP(range), rest)
  {
    InSteps(range, rest);
    InIpOf(" in " + range + rest, "in " + range + rest, " " + range + rest, range + rest);
    IpRoundTrip(range, rest);
  }

  lemma InIpOf(s: string, u: string, t: string, v: string)
    requires Ws(s) == Some(u) && Lit("in", u, true) == Some(t) && Ws(t) == Some(v)
    ensures InIp(s) == IpP(v)
  {
  }

  lemma EqSteps(a: string, rest: string)
    requires a != [] && !IsWs(a[0]) && a[0] != '='
    ensures Lit("=", SkipWs("=" + a + rest), false) == Some(a + rest)
    ensures SkipWs(Optional("=", a + rest)) == a + rest
  {
    var s := "=" + a + rest;
    SkipNone(s);
    assert s == "=" + (a + rest);
    LitPrefix("=", a + rest, false);
    assert (a + rest)[0] == a[0];
    LitMismatch("=", a + rest, 0, false);
    SkipNone(a + rest);
  }

  /** `match_tail` reads `=` and a value. */
  lemma MatchTailValue(v: Atom, rest: string)
    requires PrintableValue(v) && !v.IP? && Closes(rest)
    ensures MatchTail("=" + AtomText(v) + rest) == Success(v, rest)
  {
    AtomTextStart(v);
    EqSteps(AtomText(v), rest);
    ValueRoundTrip(v, rest);
  }

  /** Without a leading `=`, `match_tail` is the ` in ` alternative. */
  lemma MatchTailFallsBack(s: string)
    requires Lit("=", SkipWs(s), false) == None
    ensures MatchTail(s) == InIp(s)
  {
  }

  /** Text that starts with a space and a word loses exactly the space to `ws`. */
  lemma SpaceThenWord(w: string, x: string)
    requires w != [] && !IsWs(w[0])
    ensures SkipWs(" " + w + x) == w + x && Ws(" " + w + x) == Some(w + x)
  {
    assert " " + w + x == [' '] + (w + x);
    assert (w + x)[0] == w[0];
    SkipOne(' ', w + x);
  }

  lemma InIsNotEq(range: string, rest: string)
    ensures Lit("=", SkipWs(" in " + range + rest), false) == None
  {
    SpaceThenWord("in", " " + range + rest);
    assert " in " + range + rest == " " + "in" + (" " + range + rest);
    assert "in" + (" " + range + rest) == "in " + range + rest;
    LitMismatch("=", "in " + range + rest, 0, false);
  }

  /** `match_tail` reads ` in ` and an IP literal. */
  lemma MatchTailIp(range: string, rest: string)
    requires IsIpText(range) && Closes(rest)
    ensures MatchTail(" in " + range + rest) == Success(IP(range), rest)
  {
    InIsNotEq(range, rest);
    MatchTailFallsBack(" in " + range + rest);
    InIpRoundTrip(range, rest);
  }

  /** `match_tail` reads `=` and a value, or ` in ` and an IP literal. */
  lemma MatchTailRoundTrip(v: Atom, rest: string)
    requires PrintableValue(v) && Closes(rest)
    ensures MatchTail((if v.IP? then " in " else "=") + AtomText(v) + rest) == Success(v, rest)
  {
    if v.IP? {
      MatchTailIp(v.range, rest);
    } else {
      MatchTailValue(v, rest);
    }
  }

  lemma NeSteps(a: string, rest: string)
    requires a != [] && !IsWs(a[0])
    ensures SkipWs("!=" + a + rest) == "!=" + a + rest && Ws("!=" + a + rest) == None
    ensures Lit("=", "!=" + a + rest, false) == None
    ensures Lit("!=", "!=" + a + rest, false) == Some(a + rest)
    ensures SkipWs(a + rest) == a + rest
  {
    var s := "!=" + a + rest;
    SkipNone(s);
    LitMismatch("=", s, 0, false);
    assert s == "!=" + (a + rest);
    LitPrefix("!=", a + rest, false);
    assert (a + rest)[0] == a[0];
    SkipNone(a + rest);
  }

  /** `non_match_tail` reads `!=` and a value, which `match_tail` rejects. */
  lemma NonMatchTailValue(v: Atom, rest: string)
    requires PrintableValue(v) && !v.IP? && Closes(rest)
    ensures MatchTail("!=" + AtomText(v) + rest) == Fail
    ensures NonMatchTail("!=" + AtomText(v) + rest) == Success(v, rest)
  {
    AtomTextStart(v);
    NeSteps(AtomText(v), rest);
    ValueRoundTrip(v, rest);
  }

  /** Without a leading `!=`, `non_match_tail` is the ` not in ` alternative. */
  lemma NonMatchTailFallsBack(s: string, u: string, t: string)
    requires Lit("!=", SkipWs(s), false) == None
    requires Ws(s) == Some(u) && Lit("not", u, true) == Some(t)
    ensures NonMatchTail(s) == InIp(t)
  {
  }

  lemma NotInSteps(range: string, rest: string)
    ensures Ws(" not in " + range + rest) == Some("not in " + range + rest)
    ensures SkipWs(" not in " + range + rest) == "not in " + range + rest
    ensures Lit("=", "not in " + range + rest, false) == None
    ensures Lit("in", "not in " + range + rest, true) == None
    ensures Lit("!=", "not in " + range + rest, false) == None
    ensures Lit("not", "not in " + range + rest, true) == Some(" in " + range + rest)
  {
    var u := "not in " + range + rest;
    SpaceThenWord("not", " in " + range + rest);
    assert " not in " + range + rest == " " + "not" + (" in " + range + rest);
    assert "not" + (" in " + range + rest) == u;
    LitMismatch("=", u, 0, false);
    LitMismatch("in", u, 0, true);
    LitMismatch("!=", u, 0, false);
    LitPrefix("not", " in " + range + rest, true);
  }

  /** `non_match_tail` reads ` not in ` and an IP literal, which `match_tail` rejects. */
  lemma NonMatchTailIp(range: string, rest: string)
    requires IsIpText(range) && Closes(rest)
    ensures MatchTail(" not in " + range + rest) == Fail
    ensures NonMatchTail(" not in " + range + rest) == Success(IP(range), rest)
  {
    var s, u := " not in " + range + rest, "not in " + range + rest;
    NotInSteps(range, rest);
    MatchTailFallsBack(s);
    NonMatchTailFallsBack(s, u, " in " + range + rest);
    InIpRoundTrip(range, rest);
  }

  lemma NonMatchTailRoundTrip(v: Atom, rest: string)
    requires PrintableValue(v) && Closes(rest)
    ensures MatchTail((if v.IP? then " not in " else "!=") + AtomText(v) + rest) == Fail
    ensures NonMatchTail((if v.IP? then " not in " else "!=") + AtomText(v) + rest) == Success(v, rest)
  {
    if v.IP? {
      NonMatchTailIp(v.range, rest);
    } else {
      NonMatchTailValue(v, rest);
    }
  }

  /** Neither tail starts at the end of a rule. */
  lemma NoTailAfter(rest: string)
    requires Closes(rest)
    ensures MatchTail(rest) == Fail && NonMatchTail(rest) == Fail
  {
    SkipNone(rest);
    LitMismatch("=", rest, 0, false);
    LitMismatch("!=", rest, 0, false);
  }

  // ---------------------------------------------------------------------
  // Basic rules

  /** What `format_match`/`format_non_match` print between the key and the value. */
  function PairSeparator(r: Rule): string
    requires r.Match? || r.NonMatch?
  {
    if r.Match? then (if r.value.IP? then " in " else "=") else (if r.value.IP? then " not in " else "!=")
  }

  /** What may follow the first atom of a basic rule: the end of the rule, or a separator. */
  predicate AfterAtom(tail: string)
  {
    tail == [] || tail[0] == '=' || tail[0] == '!' || tail[0] == ' ' || tail[0] == ')'
  }

  lemma PairText(r: Rule, rest: string, iterate: set<Rule> -> seq<Rule>)
    requires Enumerates(iterate) && (r.Match? || r.NonMatch?)
    ensures RuleText(r, iterate) + rest == AtomText(r.key) + (PairSeparator(r) + AtomText(r.value) + rest)
    ensures AfterAtom(PairSeparator(r) + AtomText(r.value) + rest)
  {
    var k, sep, v := AtomText(r.key), PairSeparator(r), AtomText(r.value);
    assert RuleText(r, iterate) == k + sep + v;
    Regroup(k, sep, v);
    Regroup(k, sep + v, rest);
    Regroup(sep, v, rest);
    assert (sep + (v + rest))[0] == sep[0];
  }

  /** The step after a key reads the separator and the value back. */
  lemma KeyTailsRoundTrip(r: Rule, rest: string, fuzzyByDefault: bool)
    requires (r.Match? || r.NonMatch?) && PrintableValue(r.value) && Closes(rest)
    ensures KeyTails(r.key, PairSeparator(r) + AtomText(r.value) + rest, fuzzyByDefault) == Success(r, rest)
  {
    if r.Match? {
      MatchTailRoundTrip(r.value, rest);
    } else {
      NonMatchTailRoundTrip(r.value, rest);
    }
  }

  /** `basic` commits to a `*` key once a tail follows it. */
  lemma BasicAfterStar(s: string)
    requires StarP(s).Success? && KeyTails(Star, StarP(s).rest, false).Success?
    ensures Basic(s) == KeyTails(Star, StarP(s).rest, false)
  {
  }

  /** `basic` reads a string key when no other atom starts the text. */
  lemma BasicAfterString(s: string)
    requires StarP(s).Fail? && RegexpP(s).Fail? && IpP(s).Fail? && StringP(s).Success?
    ensures Basic(s) == KeyTails(StringP(s).value, StringP(s).rest, true)
  {
  }

  lemma BasicOfStar(tail: string)
    requires KeyTails(Star, tail, false).Success?
    ensures Basic("*" + tail) == KeyTails(Star, tail, false)
  {
    assert ("*" + tail)[1..] == tail;
    BasicAfterStar("*" + tail);
  }

  /** A printed string is read as a string key, whatever the tails then make of it. */
  lemma BasicOfString(w: string, tail: string)
    requires AfterAtom(tail)
    ensures Basic(FormatString(w) + tail) == KeyTails(String(w), tail, true)
  {
    var s := FormatString(w) + tail;
    AtomTextStart(String(w));
    assert s[0] == FormatString(w)[0];
    assert StarP(s).Fail? && RegexpP(s).Fail?;
    StringTextNotIp(w, tail);
    StringRoundTrip(w, tail);
    BasicAfterString(s);
  }

  lemma StarKeyRoundTrip(r: Rule, rest: string)
    requires (r.Match? || r.NonMatch?) && r.key.Star? && PrintableValue(r.value) && Closes(rest)
    ensures Basic("*" + (PairSeparator(r) + AtomText(r.value) + rest)) == Success(r, rest)
  {
    KeyTailsRoundTrip(r, rest, false);
    BasicOfStar(PairSeparator(r) + AtomText(r.value) + rest);
  }

  lemma StringKeyRoundTrip(r: Rule, rest: string)
    requires (r.Match? || r.NonMatch?) && r.key.String? && PrintableValue(r.value) && Closes(rest)
    ensures Basic(FormatString(r.key.value) + (PairSeparator(r) + AtomText(r.value) + rest)) == Success(r, rest)
  {
    KeyTailsRoundTrip(r, rest, true);
    BasicOfString(r.key.value, PairSeparator(r) + AtomText(r.value) + rest);
  }

  /** `basic` reads a printed match or non-match back. */
  lemma BasicPairRoundTrip(r: Rule, rest: string)
    requires (r.Match? || r.NonMatch?) && Printable(r) && Closes(rest)
    ensures Basic(AtomText(r.key) + (PairSeparator(r) + AtomText(r.value) + rest)) == Success(r, rest)
  {
    var tail := PairSeparator(r) + AtomText(r.value) + rest;
    if r.key.Star? {
      assert AtomText(r.key) == "*";
      StarKeyRoundTrip(r, rest);
    } else {
      QuotingsAgree(r.key.value);
      assert AtomText(r.key) == FormatString(r.key.value);
      StringKeyRoundTrip(r, rest);
    }
  }

  /** `basic` reads a printed fuzzy atom back as a fuzzy rule. */
  lemma BasicFuzzyRoundTrip(a: Atom, rest: string)
    requires !a.Star? && PrintableValue(a) && PrintableLead(a) && Closes(rest)
    ensures Basic(AtomText(a) + rest) == Success(Fuzzy(a), rest)
  {
    var s := AtomText(a) + rest;
    AtomTextStart(a);
    assert s[0] == AtomText(a)[0];
    match a
    case String(w) =>
      QuotingsAgree(w);
      BasicOfString(w, rest);
      NoTailAfter(rest);
    case RegExp(p, ic) =>
      RegexpAsWrittenRoundTrip(p, ic, rest);
    case IP(range) =>
      IpRoundTrip(range, rest);
  }

  /** `no_parser` fails unless the text starts with `no` followed by whitespace or a parenthesis. */
  lemma NoRuleRejects(s: string)
    requires !(|s| > 2 && Lower(s[0]) == 'n' && Lower(s[1]) == 'o' && (IsWs(s[2]) || s[2] == '('))
    ensures NoRule(s) == Fail
  {
    if Lit("no", s, true).Some? {
      assert LowerAll(s[..2])[0] == LowerAll("no")[0] && LowerAll(s[..2])[1] == LowerAll("no")[1];
      var t := s[2..];
      assert t != [] ==> t[0] == s[2];
      SkipNone(t);
    }
  }

  /** The printed form of an atom followed by a separator is never read as a negation. */
  lemma AtomNotNo(a: Atom, tail: string)
    requires PrintableValue(a) && PrintableLead(a) && AfterAtom(tail)
    ensures NoRule(AtomText(a) + tail) == Fail
  {
    var s := AtomText(a) + tail;
    AtomTextStart(a);
    assert s[0] == AtomText(a)[0];
    if a.String? && IsUnquotedToken(a.value) {
      var w := a.value;
      if |w| >= 3 {
        assert s[2] == w[2];
      } else if |w| == 1 && |s| > 2 {
        assert s[1] == tail[0];
      } else if |w| == 2 && |s| > 2 {
        assert s[0] == w[0] && s[1] == w[1];
      }
    } else if a.String? {
      assert s[0] == '"';
    }
    NoRuleRejects(s);
  }

  /** `basic` reads a printed match, non-match or fuzzy rule back, and `no_parser` rejects it. */
  lemma BasicRoundTrip(r: Rule, rest: string, iterate: set<Rule> -> seq<Rule>)
    requires Enumerates(iterate) && IsBasic(r) && Printable(r) && Closes(rest)
    ensures Basic(RuleText(r, iterate) + rest) == Success(r, rest)
    ensures NoRule(RuleText(r, iterate) + rest) == Fail
  {
    if r.Fuzzy? {
      assert RuleText(r, iterate) == AtomText(r.atom);
      BasicFuzzyRoundTrip(r.atom, rest);
      AtomNotNo(r.atom, rest);
    } else {
      PairText(r, rest, iterate);
      BasicPairRoundTrip(r, rest);
      AtomNotNo(r.key, PairSeparator(r) + AtomText(r.value) + rest);
    }
  }

  // ---------------------------------------------------------------------
  // One step of each recursive grammar rule

  lemma NoOrBasicOfBasic(s: string)
    requires NoRule(s).Fail? && Basic(s).Success?
    ensures NoOrBasic(s) == Basic(s)
  {
  }

  lemma NoOrBasicOfNo(s: string)
    requires NoRule(s).Success?
    ensures NoOrBasic(s) == NoRule(s)
  {
  }

  lemma NoRuleOfParens(s: string, t: string)
    requires Lit("no", s, true) == Some(t) && Parens(SkipWs(t)).Success?
    ensures NoRule(s) == Success(No(Parens(SkipWs(t)).value), Parens(SkipWs(t)).rest)
  {
  }

  lemma NoRuleOfOperand(s: string, t: string, u: string)
    requires Lit("no", s, true) == Some(t) && Parens(SkipWs(t)).Fail? && Ws(t) == Some(u) && NoOrBasic(u).Success?
    ensures NoRule(s) == Success(No(NoOrBasic(u).value), NoOrBasic(u).rest)
  {
  }

  lemma ParensOf(s: string)
    requires s != [] && s[0] == '(' && Expr(s[1..]).Success?
    requires Expr(s[1..]).rest != [] && Expr(s[1..]).rest[0] == ')'
    ensures Parens(s) == Success(Expr(s[1..]).value, Expr(s[1..]).rest[1..])
  {
  }

  /** An expression that is a `no` or basic rule with nothing after it. */
  lemma ExprOfUnit(s: string)
    requires s != [] && !IsWs(s[0]) && s[0] != '('
    requires NoOrBasic(s).Success? && Closes(NoOrBasic(s).rest)
    ensures Expr(s) == NoOrBasic(s)
  {
    var x := NoOrBasic(s);
    SkipNone(s);
    ParensNeedsParen(s);
    ConnectNone(x.value, x.rest, true);
    SkipNone(x.rest);
  }

  /** An expression that starts with a parenthesised one, continued by what follows. */
  lemma ExprOfParens(s: string)
    requires s != [] && s[0] == '(' && Parens(s).Success?
    ensures Expr(s) == Success(Connect(Parens(s).value, Parens(s).rest, false).value,
                               SkipWs(Connect(Parens(s).value, Parens(s).rest, false).rest))
  {
    SkipNone(s);
  }

  /** Nothing continues a rule at the end of the text or before a closing parenthesis. */
  lemma ConnectNone(x: Rule, u: string, needWs: bool)
    requires WellFormed(x) && Closes(u)
    ensures Connect(x, u, needWs) == Success(x, u)
  {
    SkipNone(u);
    NoConnective(u);
  }

  lemma NoConnective(u: string)
    requires Closes(u)
    ensures BinaryTail(AndWord, u) == Fail && BinaryTail(OrWord, u) == Fail
  {
    LitMismatch("and", u, 0, true);
    LitMismatch("or", u, 0, true);
    BinaryTailNeedsWord(AndWord, u);
    BinaryTailNeedsWord(OrWord, u);
  }

  lemma ConnectAnd(x: Rule, u: string)
    requires WellFormed(x) && BinaryTail(AndWord, SkipWs(u)).Success?
    ensures Connect(x, u, false)
            == Success(And(Elements([x] + BinaryTail(AndWord, SkipWs(u)).value)), BinaryTail(AndWord, SkipWs(u)).rest)
  {
  }

  lemma ConnectOr(x: Rule, u: string)
    requires WellFormed(x) && BinaryTail(AndWord, SkipWs(u)).Fail? && BinaryTail(OrWord, SkipWs(u)).Success?
    ensures Connect(x, u, false)
            == Success(Or(Elements([x] + BinaryTail(OrWord, SkipWs(u)).value)), BinaryTail(OrWord, SkipWs(u)).rest)
  {
  }

  lemma BinaryTailNeedsWord(name: Connective, s: string)
    requires Lit(Word(name), s, true) == None
    ensures BinaryTail(name, s) == Fail
  {
  }

  /** The connective, the pairs, then whitespace and a final operand. */
  lemma BinaryTailSteps(name: Connective, s: string, u: string, ys: seq<Rule>, w: string, x: Rule, rest: string)
    requires Lit(Word(name), s, true) == Some(u)
    requires Pairs(name, u) == Success(ys, [' '] + w) && w != [] && !IsWs(w[0]) && Expr(w) == Success(x, rest)
    ensures BinaryTail(name, s) == Success(ys + [x], rest)
  {
    SpaceBeforeOperand(w);
  }

  lemma SpaceBeforeOperand(w: string)
    requires w != [] && !IsWs(w[0])
    ensures Ws([' '] + w) == Some(w) && Parens([' '] + w) == Fail
  {
    SkipOne(' ', w);
    ParensNeedsParen([' '] + w);
  }

  lemma ParensNeedsParen(s: string)
    requires s == [] || s[0] != '('
    ensures Parens(s) == Fail
  {
  }

  lemma PairItemOf(name: Connective, u: string)
    requires Parens(SkipWs(u)).Success?
    ensures PairItem(name, u)
            == (var o := SkipWs(Parens(SkipWs(u)).rest);
                if Lit(Word(name), o, true).None? then Fail else Success(Parens(SkipWs(u)).value, Lit(Word(name), o, true).value))
  {
  }

  lemma PairsStep(name: Connective, u: string)
    requires PairItem(name, u).Success?
    ensures Pairs(name, u)
            == Success([PairItem(name, u).value] + Pairs(name, PairItem(name, u).rest).value, Pairs(name, PairItem(name, u).rest).rest)
  {
  }

  lemma PairsStop(name: Connective, u: string)
    requires PairItem(name, u).Fail?
    ensures Pairs(name, u) == Success([], u)
  {
  }

  // ---------------------------------------------------------------------
  // Printed rules read back

  /** A printed `no` or basic rule starts with neither whitespace nor a parenthesis. */
  lemma UnitTextStart(r: Rule, iterate: set<Rule> -> seq<Rule>)
    requires Enumerates(iterate) && IsUnit(r) && Printable(r)
    ensures |RuleText(r, iterate)| > 0
    ensures !IsWs(RuleText(r, iterate)[0]) && RuleText(r, iterate)[0] != '('
  {
    match r
    case Match(k, v) =>
      AtomTextStart(k);
      PairText(r, [], iterate);
    case NonMatch(k, v) =>
      AtomTextStart(k);
      PairText(r, [], iterate);
    case Fuzzy(a) =>
      AtomTextStart(a);
    case No(x) =>
      assert RuleText(r, iterate)[0] == 'n';
  }

  /** A rule in parentheses, and what follows it. */
  function ParenText(x: Rule, rest: string, iterate: set<Rule> -> seq<Rule>): (t: string)
    requires Enumerates(iterate)
    ensures t != [] && t[0] == '(' && !IsWs(t[0])
  {
    "(" + RuleText(x, iterate) + ")" + rest
  }

  lemma NoUnitText(r: Rule, rest: string, iterate: set<Rule> -> seq<Rule>)
    requires Enumerates(iterate) && r.No? && IsUnit(r.subrule)
    ensures RuleText(r, iterate) + rest == "no" + ([' '] + (RuleText(r.subrule, iterate) + rest))
  {
    assert "no " == "no" + [' '];
  }

  lemma NoParenText(r: Rule, rest: string, iterate: set<Rule> -> seq<Rule>)
    requires Enumerates(iterate) && r.No? && !IsUnit(r.subrule)
    ensures RuleText(r, iterate) + rest == "no" + ([' '] + ParenText(r.subrule, rest, iterate))
  {
    assert "no " == "no" + [' '];
  }

  /** `no_parser` reads `no` and a printed unit back. */
  lemma {:induction false} NoUnitRoundTrip(r: Rule, rest: string, iterate: set<Rule> -> seq<Rule>)
    requires Enumerates(iterate) && r.No? && IsUnit(r.subrule) && Printable(r) && Closes(rest)
    ensures NoRule(RuleText(r, iterate) + rest) == Success(r, rest)
    decreases r, 0, 0
  {
    var x := r.subrule;
    var u := RuleText(x, iterate) + rest;
    NoUnitText(r, rest, iterate);
    UnitTextStart(x, iterate);
    assert u[0] == RuleText(x, iterate)[0];
    LitPrefix("no", [' '] + u, true);
    SkipOne(' ', u);
    ParensNeedsParen(u);
    UnitRoundTrip(x, rest, iterate);
    NoRuleOfOperand("no" + ([' '] + u), [' '] + u, u);
  }

  /** `no_parser` reads `no` and a printed `And`/`Or` in parentheses back. */
  lemma {:induction false} NoParenRoundTrip(r: Rule, rest: string, iterate: set<Rule> -> seq<Rule>)
    requires Enumerates(iterate) && r.No? && !IsUnit(r.subrule) && Printable(r)
    ensures NoRule(RuleText(r, iterate) + rest) == Success(r, rest)
    decreases r, 0, 0
  {
    var u := ParenText(r.subrule, rest, iterate);
    NoParenText(r, rest, iterate);
    LitPrefix("no", [' '] + u, true);
    SkipOne(' ', u);
    ParensRoundTrip(r.subrule, rest, iterate);
    NoRuleOfParens("no" + ([' '] + u), [' '] + u);
  }

  /** `union(no_parser, basic)` reads a printed negation or basic rule back. */
  lemma {:induction false} UnitRoundTrip(r: Rule, rest: string, iterate: set<Rule> -> seq<Rule>)
    requires Enumerates(iterate) && IsUnit(r) && Printable(r) && Closes(rest)
    ensures NoOrBasic(RuleText(r, iterate) + rest) == Success(r, rest)
    decreases r, 1, 0
  {
    if r.No? {
      if IsUnit(r.subrule) {
        NoUnitRoundTrip(r, rest, iterate);
      } else {
        NoParenRoundTrip(r, rest, iterate);
      }
      NoOrBasicOfNo(RuleText(r, iterate) + rest);
    } else {
      BasicRoundTrip(r, rest, iterate);
      NoOrBasicOfBasic(RuleText(r, iterate) + rest);
    }
  }

  /** `expr` reads any printed rule back, up to the end of the text or a closing parenthesis. */
  lemma {:induction false} ExprRoundTrip(r: Rule, rest: string, iterate: set<Rule> -> seq<Rule>)
    requires Enumerates(iterate) && Printable(r) && Closes(rest)
    ensures Expr(RuleText(r, iterate) + rest) == Success(r, rest)
    decreases r, 3, 0
  {
    if IsUnit(r) {
      var s := RuleText(r, iterate) + rest;
      UnitTextStart(r, iterate);
      assert s[0] == RuleText(r, iterate)[0];
      UnitRoundTrip(r, rest, iterate);
      ExprOfUnit(s);
    } else {
      ConnectiveRoundTrip(r, rest, iterate);
    }
  }

  /** `parens_expr` reads a parenthesised printed rule back, whatever follows it. */
  lemma {:induction false} ParensRoundTrip(x: Rule, rest: string, iterate: set<Rule> -> seq<Rule>)
    requires Enumerates(iterate) && Printable(x)
    ensures Parens(ParenText(x, rest, iterate)) == Success(x, rest)
    decreases x, 4, 0
  {
    var s := ParenText(x, rest, iterate);
    ParenTextInside(x, rest, iterate);
    ExprRoundTrip(x, ")" + rest, iterate);
    ParensOf(s);
  }

  lemma ParenTextInside(x: Rule, rest: string, iterate: set<Rule> -> seq<Rule>)
    requires Enumerates(iterate)
    ensures ParenText(x, rest, iterate)[1..] == RuleText(x, iterate) + (")" + rest)
    ensures (")" + rest)[1..] == rest && Closes(")" + rest)
  {
    var body := RuleText(x, iterate);
    Regroup("(" + body, ")", rest);
    Regroup("(", body, ")" + rest);
    assert ("(" + (body + (")" + rest)))[1..] == body + (")" + rest);
  }

  /** `expr` reads a parenthesised printed rule back when nothing continues it. */
  lemma {:induction false} ParenExprRoundTrip(x: Rule, rest: string, iterate: set<Rule> -> seq<Rule>)
    requires Enumerates(iterate) && Printable(x) && Closes(rest)
    ensures Expr(ParenText(x, rest, iterate)) == Success(x, rest)
    decreases x, 5, 0
  {
    var s := ParenText(x, rest, iterate);
    ParensRoundTrip(x, rest, iterate);
    ExprOfParens(s);
    ConnectNone(x, rest, false);
    SkipNone(rest);
  }

  /** The separator `format_and`/`format_or` print between operands. */
  function Sep(name: Connective): string
  {
    match name
    case AndWord => " and "
    case OrWord => " or "
  }

  lemma SepSpelled(name: Connective)
    ensures Sep(name) == [' '] + Word(name) + [' '] && Word(name) != [] && !IsWs(Word(name)[0])
  {
  }

  /** The operands of a printed `And`/`Or` after the first: what `binary_rule_tail` is given. */
  predicate Operands(parent: Rule, ys: seq<Rule>, name: Connective)
  {
    (parent.And? || parent.Or?) && Printable(parent) && ys != []
    && (forall i :: 0 <= i < |ys| ==> ys[i] in parent.subrules)
    && name == (if parent.And? then AndWord else OrWord)
  }

  lemma OperandIsPrintable(parent: Rule, ys: seq<Rule>, name: Connective, i: int)
    requires Operands(parent, ys, name) && 0 <= i < |ys|
    ensures Printable(ys[i])
  {
    assert ys[i] in parent.subrules;
  }

  lemma OperandsTail(parent: Rule, ys: seq<Rule>, name: Connective)
    requires Operands(parent, ys, name) && |ys| > 1
    ensures Operands(parent, ys[1..], name)
  {
    assert forall i :: 0 <= i < |ys| - 1 ==> ys[1..][i] == ys[i + 1];
  }

  /** The text after a connective: a space, the next operand in parentheses, and the operands after it. */
  function OperandsText(parent: Rule, ys: seq<Rule>, name: Connective, rest: string, iterate: set<Rule> -> seq<Rule>): string
    requires Enumerates(iterate) && Operands(parent, ys, name)
  {
    [' '] + ParenText(ys[0], JoinText(parent, ys[1..], Sep(name), false, iterate) + rest, iterate)
  }

  lemma SeparatorSteps(w: string, p: string)
    requires w != [] && !IsWs(w[0])
    ensures SkipWs(([' '] + w + [' ']) + p) == w + ([' '] + p)
  {
    assert ([' '] + w + [' ']) + p == [' '] + (w + ([' '] + p));
    assert (w + ([' '] + p))[0] == w[0];
    SkipOne(' ', w + ([' '] + p));
  }

  lemma ParenAssoc(a: string, t: string, j: string, rest: string)
    ensures a + ("(" + t + ")" + j) + rest == a + ("(" + t + ")" + (j + rest))
  {
  }

  lemma JoinNext(parent: Rule, ys: seq<Rule>, name: Connective, rest: string, iterate: set<Rule> -> seq<Rule>)
    requires Enumerates(iterate) && Operands(parent, ys, name)
    ensures JoinText(parent, ys, Sep(name), false, iterate) + rest
            == Sep(name) + ParenText(ys[0], JoinText(parent, ys[1..], Sep(name), false, iterate) + rest, iterate)
  {
    JoinUnfolds(parent, ys, Sep(name), false, iterate);
    ParenAssoc(Sep(name), RuleText(ys[0], iterate), JoinText(parent, ys[1..], Sep(name), false, iterate), rest);
  }

  /** The printed operands after the first start with the connective once whitespace is skipped. */
  lemma JoinStart(parent: Rule, ys: seq<Rule>, name: Connective, rest: string, iterate: set<Rule> -> seq<Rule>)
    requires Enumerates(iterate) && Operands(parent, ys, name)
    ensures SkipWs(JoinText(parent, ys, Sep(name), false, iterate) + rest) == Word(name) + OperandsText(parent, ys, name, rest, iterate)
  {
    JoinNext(parent, ys, name, rest, iterate);
    SepSpelled(name);
    SeparatorSteps(Word(name), ParenText(ys[0], JoinText(parent, ys[1..], Sep(name), false, iterate) + rest, iterate));
  }

  /** After the last operand, `repeat` finds no connective. */
  lemma {:induction false} PairItemLast(parent: Rule, ys: seq<Rule>, name: Connective, rest: string, iterate: set<Rule> -> seq<Rule>)
    requires Enumerates(iterate) && Operands(parent, ys, name) && |ys| == 1 && Closes(rest)
    ensures PairItem(name, OperandsText(parent, ys, name, rest, iterate)) == Fail
    decreases parent, 0, 0
  {
    var u := OperandsText(parent, ys, name, rest, iterate);
    LastOperand(parent, ys, name, rest, iterate);
    SkipOne(' ', ParenText(ys[0], rest, iterate));
    OperandIsPrintable(parent, ys, name, 0);
    ParensRoundTrip(ys[0], rest, iterate);
    PairItemOf(name, u);
    SkipNone(rest);
    LitMismatch(Word(name), rest, 0, true);
  }

  lemma LastOperand(parent: Rule, ys: seq<Rule>, name: Connective, rest: string, iterate: set<Rule> -> seq<Rule>)
    requires Enumerates(iterate) && Operands(parent, ys, name) && |ys| == 1
    ensures OperandsText(parent, ys, name, rest, iterate) == [' '] + ParenText(ys[0], rest, iterate)
  {
    assert JoinText(parent, ys[1..], Sep(name), false, iterate) == [];
  }

  /** Before any other operand, `repeat` reads the parenthesised operand and the connective. */
  lemma {:induction false} PairItemNext(parent: Rule, ys: seq<Rule>, name: Connective, rest: string, iterate: set<Rule> -> seq<Rule>)
    requires Enumerates(iterate) && Operands(parent, ys, name) && |ys| > 1
    ensures PairItem(name, OperandsText(parent, ys, name, rest, iterate)) == Success(ys[0], OperandsText(parent, ys[1..], name, rest, iterate))
    decreases parent, 0, 0
  {
    var j := JoinText(parent, ys[1..], Sep(name), false, iterate) + rest;
    var u := OperandsText(parent, ys, name, rest, iterate);
    SkipOne(' ', ParenText(ys[0], j, iterate));
    OperandIsPrintable(parent, ys, name, 0);
    ParensRoundTrip(ys[0], j, iterate);
    PairItemOf(name, u);
    JoinStart(parent, ys[1..], name, rest, iterate);
    LitPrefix(Word(name), OperandsText(parent, ys[1..], name, rest, iterate), true);
  }

  lemma {:induction false} PairsOfLast(parent: Rule, ys: seq<Rule>, name: Connective, rest: string, iterate: set<Rule> -> seq<Rule>)
    requires Enumerates(iterate) && Operands(parent, ys, name) && |ys| == 1 && Closes(rest)
    ensures Pairs(name, OperandsText(parent, ys, name, rest, iterate)) == Success([], [' '] + ParenText(ys[0], rest, iterate))
    decreases parent, 0, 1
  {
    PairItemLast(parent, ys, name, rest, iterate);
    PairsStop(name, OperandsText(parent, ys, name, rest, iterate));
    LastOperand(parent, ys, name, rest, iterate);
  }

  lemma {:induction false} PairsOfNext(parent: Rule, ys: seq<Rule>, name: Connective, rest: string, iterate: set<Rule> -> seq<Rule>)
    requires Enumerates(iterate) && Operands(parent, ys, name) && |ys| > 1 && Closes(rest)
    requires Pairs(name, OperandsText(parent, ys[1..], name, rest, iterate))
             == Success(ys[1..][..|ys| - 2], [' '] + ParenText(ys[1..][|ys| - 2], rest, iterate))
    ensures Pairs(name, OperandsText(parent, ys, name, rest, iterate)) == Success(ys[..|ys| - 1], [' '] + ParenText(ys[|ys| - 1], rest, iterate))
    decreases parent, 0, 1
  {
    PairItemNext(parent, ys, name, rest, iterate);
    PairsStep(name, OperandsText(parent, ys, name, rest, iterate));
    AllButLast(ys);
  }

  /** `repeat` reads every operand but the last, each with the connective after it. */
  lemma {:induction false} PairsRoundTrip(parent: Rule, ys: seq<Rule>, name: Connective, rest: string, iterate: set<Rule> -> seq<Rule>)
    requires Enumerates(iterate) && Operands(parent, ys, name) && Closes(rest)
    ensures Pairs(name, OperandsText(parent, ys, name, rest, iterate)) == Success(ys[..|ys| - 1], [' '] + ParenText(ys[|ys| - 1], rest, iterate))
    decreases parent, 0, |ys| + 1
  {
    if |ys| == 1 {
      PairsOfLast(parent, ys, name, rest, iterate);
    } else {
      OperandsTail(parent, ys, name);
      PairsRoundTrip(parent, ys[1..], name, rest, iterate);
      PairsOfNext(parent, ys, name, rest, iterate);
    }
  }

  lemma AllButLast(ys: seq<Rule>)
    requires |ys| > 1
    ensures [ys[0]] + ys[1..][..|ys| - 2] == ys[..|ys| - 1] && ys[1..][|ys| - 2] == ys[|ys| - 1]
  {
  }

  lemma WithLast(ys: seq<Rule>)
    requires ys != []
    ensures ys[..|ys| - 1] + [ys[|ys| - 1]] == ys
  {
  }

  /** `binary_rule_tail` reads the printed operands after the first back. */
  lemma {:induction false} BinaryTailRoundTrip(parent: Rule, ys: seq<Rule>, name: Connective, rest: string, iterate: set<Rule> -> seq<Rule>)
    requires Enumerates(iterate) && Operands(parent, ys, name) && Closes(rest)
    ensures BinaryTail(name, SkipWs(JoinText(parent, ys, Sep(name), false, iterate) + rest)) == Success(ys, rest)
    decreases parent, 1, 0
  {
    var last := ys[|ys| - 1];
    var u := OperandsText(parent, ys, name, rest, iterate);
    JoinStart(parent, ys, name, rest, iterate);
    LitPrefix(Word(name), u, true);
    PairsRoundTrip(parent, ys, name, rest, iterate);
    OperandIsPrintable(parent, ys, name, |ys| - 1);
    ParenExprRoundTrip(last, rest, iterate);
    BinaryTailSteps(name, Word(name) + u, u, ys[..|ys| - 1], ParenText(last, rest, iterate), last, rest);
    WithLast(ys);
  }

  /** An enumeration of a set of two or more rules lists at least two, and exactly the set's members. */
  lemma EnumerationOfPair(s: set<Rule>, xs: seq<Rule>)
    requires |s| >= 2 && IsEnumeration(s, xs)
    ensures |xs| >= 2 && Elements(xs) == s
  {
    var a :| a in s;
    assert s == (s - {a}) + {a};
    var b :| b in s - {a};
    var i :| 0 <= i < |xs| && xs[i] == a;
    var j :| 0 <= j < |xs| && xs[j] == b;
    assert i != j;
  }

  /** The connective a printed `And`/`Or` is joined with. */
  function NameOf(r: Rule): Connective
  {
    if r.And? then AndWord else OrWord
  }

  lemma ConnectiveOperands(r: Rule, iterate: set<Rule> -> seq<Rule>)
    requires Enumerates(iterate) && (r.And? || r.Or?) && Printable(r)
    ensures |iterate(r.subrules)| >= 2 && Elements(iterate(r.subrules)) == r.subrules
    ensures Operands(r, iterate(r.subrules)[1..], NameOf(r))
  {
    EnumerationOfPair(r.subrules, iterate(r.subrules));
  }

  lemma ConnectiveText(r: Rule, rest: string, iterate: set<Rule> -> seq<Rule>)
    requires Enumerates(iterate) && (r.And? || r.Or?) && |iterate(r.subrules)| >= 2
    ensures var xs := iterate(r.subrules);
            RuleText(r, iterate) + rest == ParenText(xs[0], JoinText(r, xs[1..], Sep(NameOf(r)), false, iterate) + rest, iterate)
  {
    var xs := iterate(r.subrules);
    assert RuleText(r, iterate) == JoinText(r, xs, Sep(NameOf(r)), true, iterate);
    JoinUnfolds(r, xs, Sep(NameOf(r)), true, iterate);
    ParenAssoc("", RuleText(xs[0], iterate), JoinText(r, xs[1..], Sep(NameOf(r)), false, iterate), rest);
  }

  /** After the first operand of a printed `Or`, the `and` tail finds no `and`. */
  lemma OrIsNotAnd(r: Rule, ys: seq<Rule>, rest: string, iterate: set<Rule> -> seq<Rule>)
    requires Enumerates(iterate) && Operands(r, ys, OrWord)
    ensures BinaryTail(AndWord, SkipWs(JoinText(r, ys, Sep(OrWord), false, iterate) + rest)) == Fail
  {
    JoinStart(r, ys, OrWord, rest, iterate);
    LitMismatch("and", Word(OrWord) + OperandsText(r, ys, OrWord, rest, iterate), 0, true);
  }

  /** A parenthesised first operand followed by an `and` tail. */
  lemma ExprOfAnd(p: string, x: Rule, j: string, ys: seq<Rule>, rest: string)
    requires p != [] && p[0] == '(' && WellFormed(x) && Parens(p) == Success(x, j)
    requires BinaryTail(AndWord, SkipWs(j)) == Success(ys, rest) && Closes(rest)
    ensures Expr(p) == Success(And(Elements([x] + ys)), rest)
  {
    ExprOfParens(p);
    ConnectAnd(x, j);
    SkipNone(rest);
  }

  /** A parenthesised first operand followed by an `or` tail and no `and` tail. */
  lemma ExprOfOr(p: string, x: Rule, j: string, ys: seq<Rule>, rest: string)
    requires p != [] && p[0] == '(' && WellFormed(x) && Parens(p) == Success(x, j)
    requires BinaryTail(AndWord, SkipWs(j)) == Fail && BinaryTail(OrWord, SkipWs(j)) == Success(ys, rest) && Closes(rest)
    ensures Expr(p) == Success(Or(Elements([x] + ys)), rest)
  {
    ExprOfParens(p);
    ConnectOr(x, j);
    SkipNone(rest);
  }

  lemma ElementsSplit(xs: seq<Rule>, s: set<Rule>)
    requires xs != [] && Elements(xs) == s
    ensures Elements([xs[0]] + xs[1..]) == s
  {
    assert [xs[0]] + xs[1..] == xs;
  }

  /** `expr` reads a printed `And`/`Or` back: its first operand, then `binary_rule_tail` for the others. */
  lemma {:induction false} ConnectiveRoundTrip(r: Rule, rest: string, iterate: set<Rule> -> seq<Rule>)
    requires Enumerates(iterate) && (r.And? || r.Or?) && Printable(r) && Closes(rest)
    ensures Expr(RuleText(r, iterate) + rest) == Success(r, rest)
    decreases r, 2, 0
  {
    var xs := iterate(r.subrules);
    var name := NameOf(r);
    ConnectiveOperands(r, iterate);
    ConnectiveText(r, rest, iterate);
    var j := JoinText(r, xs[1..], Sep(name), false, iterate) + rest;
    ParensRoundTrip(xs[0], j, iterate);
    BinaryTailRoundTrip(r, xs[1..], name, rest, iterate);
    ElementsSplit(xs, r.subrules);
    if r.And? {
      ExprOfAnd(ParenText(xs[0], j, iterate), xs[0], j, xs[1..], rest);
    } else {
      OrIsNotAnd(r, xs[1..], rest, iterate);
      ExprOfOr(ParenText(xs[0], j, iterate), xs[0], j, xs[1..], rest);
    }
  }

  // ---------------------------------------------------------------------
  // The round trip

  /** `parse(format(rule)) == rule` for every rule whose printed form the grammar can read. */
  lemma FormatParseRoundTrip(r: Rule, iterate: set<Rule> -> seq<Rule>)
    requires Enumerates(iterate) && Printable(r)
    ensures Parse(RuleText(r, iterate)) == Ok(r)
  {
    var text := RuleText(r, iterate);
    ExprRoundTrip(r, [], iterate);
    assert text + [] == text;
    ParseOfWhole(text, r);
  }

  /** `parse` accepts what `expr` reads to the end of the text. */
  lemma ParseOfWhole(text: string, r: Rule)
    requires Expr(text) == Success(r, [])
    ensures Parse(text) == Ok(r)
  {
  }

  /** Formatting with the module's own formatter and parsing the text gives the rule back. */
  method FormatThenParse(r: Rule, iterate: set<Rule> -> seq<Rule>) returns (back: Result<Rule, ParseError>)
    requires Enumerates(iterate) && Printable(r)
    ensures back == Ok(r)
  {
    var text := FormatObject(RuleObj(r), iterate);
    FormatParseRoundTrip(r, iterate);
    back := Parse(text.value);
  }
}
