/**
 * What the grammar of abusehelper/core/rules/rulelang.py makes of particular
 * texts: the cases its comments and tests call out, and the printed forms that
 * do not read back as the rule that was printed.
 */
module ParseCases {
  import opened Wrappers
  import opened Text
  import opened Rules
  import opened Lexer
  import opened Grammar
  import opened Formatter
  import opened RoundTrip

  // ---------------------------------------------------------------------
  // Printed rules

  /** A word that `format_string` prints bare, and that reads back as a string. */
  lemma PlainWord(v: string)
    requires IsUnquotedToken(v) && !IsDigit(v[0]) && |v| != 2
    ensures FormatStringAsWritten(v) == v && !BareReadsAsOther(v)
  {
    assert IpP(v).Fail?;
  }

  /** Reads the printed form of a rule back, with the subrules of `And`/`Or` in some order. */
  lemma ReadsBack(r: Rule)
    requires Printable(r)
    ensures exists iterate :: Enumerates(iterate) && Parse(RuleText(r, iterate)) == Ok(r)
  {
    var iterate := (s: set<Rule>) => SomeOrder(s);
    SomeOrderEnumerates(iterate);
    FormatParseRoundTrip(r, iterate);
    assert Enumerates(iterate) && Parse(RuleText(r, iterate)) == Ok(r);
  }

  /** A rule reads back from the text it prints as, whatever order its subrules are printed in. */
  lemma PrintedReadsBack(r: Rule, text: string)
    requires Printable(r)
    requires forall iterate :: Enumerates(iterate) ==> RuleText(r, iterate) == text
    ensures Parse(text) == Ok(r)
  {
    var iterate := (s: set<Rule>) => SomeOrder(s);
    SomeOrderEnumerates(iterate);
    assert RuleText(r, iterate) == text;
    FormatParseRoundTrip(r, iterate);
  }

  /** `a=b` is a match of a string key and a string value. */
  lemma MatchExample()
    ensures Parse("a=b") == Ok(Match(String("a"), String("b")))
  {
    PlainWord("a");
    PlainWord("b");
    PrintedReadsBack(Match(String("a"), String("b")), "a=b");
  }

  /** `a!=b` is a non-match. */
  lemma NonMatchExample()
    ensures Parse("a!=b") == Ok(NonMatch(String("a"), String("b")))
  {
    PlainWord("a");
    PlainWord("b");
    PrintedReadsBack(NonMatch(String("a"), String("b")), "a!=b");
  }

  /** `*` followed by a match tail is a wildcard key. */
  lemma StarKeyExample()
    ensures Parse("*=b") == Ok(Match(Star, String("b")))
  {
    PlainWord("b");
    PrintedReadsBack(Match(Star, String("b")), "*=b");
  }

  lemma RangeIsIp()
    ensures IsIpText("192.0.2.0/24")
  {
  }

  lemma RangeText()
    ensures "a" + " in " + "192.0.2.0/24" == "a in 192.0.2.0/24"
  {
  }

  /** `in` and an address range is a match against an IP atom. */
  lemma InRangeExample()
    ensures Parse("a in 192.0.2.0/24") == Ok(Match(String("a"), IP("192.0.2.0/24")))
  {
    PlainWord("a");
    RangeIsIp();
    RangeText();
    PrintedReadsBack(Match(String("a"), IP("192.0.2.0/24")), "a in 192.0.2.0/24");
  }

  /** A regexp literal on its own is fuzzy; a trailing `i` makes it ignore case. */
  lemma RegexpExample()
    ensures Parse("/foo/i") == Ok(Fuzzy(RegExp("foo", true)))
  {
    var r := Fuzzy(RegExp("foo", true));
    FooIsPrintable();
    var iterate := (s: set<Rule>) => SomeOrder(s);
    SomeOrderEnumerates(iterate);
    FormatParseRoundTrip(r, iterate);
    FooPrints();
    assert RuleText(r, iterate) == FormatRegexpAsWritten("foo", true);
  }

  lemma FooIsPrintable()
    ensures ValidPattern("foo") && EscapeSlashes("foo") == "foo"
    ensures Printable(Fuzzy(RegExp("foo", true)))
  {
    assert SlashFree("foo");
    EscapeSlashFree("foo");
  }

  lemma FooPrints()
    ensures FormatRegexpAsWritten("foo", true) == "/foo/i"
  {
    FooIsPrintable();
    EscapedAsWritten("foo", true);
  }

  // ---------------------------------------------------------------------
  // Texts that are not printed forms

  /** A bare `*` is refused: the wildcard needs a match or non-match tail. */
  lemma BareStarIsRefused()
    ensures Parse("*") == Err(CouldNotParse("*"))
  {
    StarIsNoExpr();
  }

  lemma StarIsNoExpr()
    ensures Expr("*") == Fail
  {
    SkipNone("*");
    assert Parens("*") == Fail;
    StarIsNoUnit();
  }

  lemma StarIsNoUnit()
    ensures NoOrBasic("*") == Fail
  {
    StarAloneIsNotBasic();
    NoRuleRejects("*");
  }

  lemma StarAloneIsNotBasic()
    ensures Basic("*") == Fail
  {
    assert StarP("*") == Success(Star, "");
    NoTailAfter("");
    assert KeyTails(Star, "", false) == Fail;
    OtherAtomsRefuseStar();
  }

  lemma OtherAtomsRefuseStar()
    ensures RegexpP("*") == Fail && IpP("*") == Fail && StringP("*") == Fail
  {
    assert !IsDigit("*"[0]);
    assert UnquotedRun("*") == 0;
  }

  /** What neither tail reads: the end of the text, or a space and a word that is not `in` or `not`. */
  predicate Quiet(u: string)
  {
    u == [] || (|u| >= 2 && u[0] == ' ' && IsUnquotedChar(u[1]) && Lower(u[1]) != 'i' && Lower(u[1]) != 'n')
  }

  lemma QuietTails(u: string)
    requires Quiet(u)
    ensures MatchTail(u) == Fail && NonMatchTail(u) == Fail
  {
    if u != [] {
      SkipOne(' ', u[1..]);
      assert u == [' '] + u[1..];
      LitMismatch("=", u[1..], 0, false);
      LitMismatch("!=", u[1..], 0, false);
      LitMismatch("in", u[1..], 0, true);
      LitMismatch("not", u[1..], 0, true);
    } else {
      NoTailAfter(u);
    }
  }

  /** A word that starts with neither a digit nor `n`, then a quiet tail: a fuzzy string. */
  lemma FuzzyWord(w: string, u: string)
    requires IsUnquotedToken(w) && !IsDigit(w[0]) && Lower(w[0]) != 'n' && Quiet(u)
    ensures NoOrBasic(w + u) == Success(Fuzzy(String(w)), u)
  {
    var s := w + u;
    assert s[0] == w[0];
    UnquotedRoundTrip(w, u);
    QuietTails(u);
    BasicAfterString(s);
    NoRuleRejects(s);
  }

  /** Such a word with nothing after it is a whole expression. */
  lemma ExprOfWord(w: string)
    requires IsUnquotedToken(w) && !IsDigit(w[0]) && Lower(w[0]) != 'n'
    ensures Expr(w) == Success(Fuzzy(String(w)), [])
  {
    FuzzyWord(w, []);
    assert w + [] == w;
    ExprOfUnit(w);
  }

  /** No connective follows: the rule so far stands, and the text after it is left. */
  lemma ConnectNothing(x: Rule, w: string)
    requires WellFormed(x) && w != [] && !IsWs(w[0]) && Lower(w[0]) != 'a' && Lower(w[0]) != 'o'
    ensures Connect(x, [' '] + w, true) == Success(x, [' '] + w)
  {
    SkipOne(' ', w);
    LitMismatch("and", w, 0, true);
    LitMismatch("or", w, 0, true);
  }

  /** A rule must use the whole text: `a b` leaves `b` unread. */
  lemma LeftoverIsRefused()
    ensures Parse("a b") == Err(CouldNotParse("a b"))
  {
    assert "a b" == "a" + " b" && " b" == [' '] + "b";
    FuzzyWord("a", " b");
    SkipNone("a b");
    ConnectNothing(Fuzzy(String("a")), "b");
    SkipOne(' ', "b");
  }

  /** A pair operand that is not parenthesised: whitespace, a `no`/basic rule, whitespace, the connective. */
  lemma PairItemOfOperand(name: Connective, s: string, v: string, x: Rule, o: string)
    requires Parens(SkipWs(s)) == Fail && Ws(s) == Some(v) && NoOrBasic(v) == Success(x, o)
    ensures Ws(o).None? ==> PairItem(name, s) == Fail
    ensures Ws(o).Some? && Lit(Word(name), Ws(o).value, true).None? ==> PairItem(name, s) == Fail
  {
  }

  /** A word as a pair operand: what follows it is not the connective, so `repeat` stops. */
  lemma PairItemOfWord(name: Connective, w: string, u: string)
    requires IsUnquotedToken(w) && !IsDigit(w[0]) && Lower(w[0]) != 'n' && Quiet(u)
    requires u == [] || Lit(Word(name), u[1..], true) == None
    ensures PairItem(name, [' '] + (w + u)) == Fail
  {
    WordOperand(w, u);
    if u != [] {
      QuietSpace(u);
    }
    PairItemOfOperand(name, [' '] + (w + u), w + u, Fuzzy(String(w)), u);
  }

  /** A word after a space is a basic rule, not a parenthesised one. */
  lemma WordOperand(w: string, u: string)
    requires IsUnquotedToken(w) && !IsDigit(w[0]) && Lower(w[0]) != 'n' && Quiet(u)
    ensures Ws([' '] + (w + u)) == Some(w + u) && Parens(SkipWs([' '] + (w + u))) == Fail
    ensures NoOrBasic(w + u) == Success(Fuzzy(String(w)), u)
  {
    assert (w + u)[0] == w[0];
    SkipOne(' ', w + u);
    ParensNeedsParen(w + u);
    FuzzyWord(w, u);
  }

  /** A quiet tail is one space and then something else. */
  lemma QuietSpace(u: string)
    requires Quiet(u) && u != []
    ensures Ws(u) == Some(u[1..])
  {
    assert u == [' '] + u[1..];
    SkipOne(' ', u[1..]);
  }

  lemma ElementsOfTwo(x: Rule, y: Rule)
    ensures Elements([x] + [y]) == {x, y}
  {
  }

  /** An expression that starts with a `no` or basic rule, continued by what follows it. */
  lemma ExprOfUnitThen(s: string, x: Rule, o: string)
    requires s != [] && !IsWs(s[0]) && s[0] != '(' && NoOrBasic(s) == Success(x, o)
    ensures Expr(s) == Success(Connect(x, o, true).value, SkipWs(Connect(x, o, true).rest))
  {
    SkipNone(s);
    ParensNeedsParen(s);
  }

  lemma ConnectAndAfterWs(x: Rule, u: string, v: string, ys: seq<Rule>, rest: string)
    requires WellFormed(x) && Ws(u) == Some(v) && BinaryTail(AndWord, v) == Success(ys, rest)
    ensures Connect(x, u, true) == Success(And(Elements([x] + ys)), rest)
  {
  }

  lemma ConnectOrAfterWs(x: Rule, u: string, v: string, ys: seq<Rule>, rest: string)
    requires WellFormed(x) && Ws(u) == Some(v) && BinaryTail(AndWord, v) == Fail && BinaryTail(OrWord, v) == Success(ys, rest)
    ensures Connect(x, u, true) == Success(Or(Elements([x] + ys)), rest)
  {
  }

  /** A word the grammar reads as a fuzzy string wherever it stands. */
  predicate PlainFuzzy(w: string)
  {
    IsUnquotedToken(w) && !IsDigit(w[0]) && Lower(w[0]) != 'n' && Lower(w[0]) != 'i'
  }

  /** The connective and a last word. */
  lemma TailOfWord(name: Connective, c: string)
    requires PlainFuzzy(c)
    ensures BinaryTail(name, Word(name) + ([' '] + c)) == Success([Fuzzy(String(c))], [])
  {
    var u := [' '] + c;
    LitPrefix(Word(name), u, true);
    PairItemOfWord(name, c, []);
    assert c + [] == c;
    PairsStop(name, u);
    ExprOfWord(c);
    BinaryTailSteps(name, Word(name) + u, u, [], c, Fuzzy(String(c)), []);
    assert [] + [Fuzzy(String(c))] == [Fuzzy(String(c))];
  }

  /** An `or` tail has no `and` tail. */
  lemma OrIsNoAndTail(t: string)
    ensures BinaryTail(AndWord, Word(OrWord) + t) == Fail
  {
    LitMismatch("and", Word(OrWord) + t, 0, true);
    BinaryTailNeedsWord(AndWord, Word(OrWord) + t);
  }

  lemma ExprOfConnected(s: string, x: Rule, o: string, y: Rule)
    requires s != [] && !IsWs(s[0]) && s[0] != '(' && NoOrBasic(s) == Success(x, o) && Connect(x, o, true) == Success(y, [])
    ensures Expr(s) == Success(y, [])
  {
    ExprOfUnitThen(s, x, o);
  }

  /** Two words joined by `or`. */
  lemma OrOfTwo(b: string, c: string)
    requires PlainFuzzy(b) && PlainFuzzy(c)
    ensures Expr(b + ([' '] + (Word(OrWord) + ([' '] + c)))) == Success(Or({Fuzzy(String(b)), Fuzzy(String(c))}), [])
  {
    var t := Word(OrWord) + ([' '] + c);
    var s := b + ([' '] + t);
    assert s[0] == b[0];
    FuzzyWord(b, [' '] + t);
    SkipOne(' ', t);
    TailOfWord(OrWord, c);
    OrIsNoAndTail([' '] + c);
    ConnectOrAfterWs(Fuzzy(String(b)), [' '] + t, t, [Fuzzy(String(c))], []);
    ElementsOfTwo(Fuzzy(String(b)), Fuzzy(String(c)));
    ExprOfConnected(s, Fuzzy(String(b)), [' '] + t, Or({Fuzzy(String(b)), Fuzzy(String(c))}));
  }

  /** A keyword written in any case. */
  lemma KeywordPrefix(lit: string, k: string, t: string)
    requires |k| == |lit| && LowerAll(k) == LowerAll(lit)
    ensures Lit(lit, k + t, true) == Some(t)
  {
    assert (k + t)[..|lit|] == k && (k + t)[|lit|..] == t;
  }

  /** The spellings of `and`: its first letter is `a` or `A`. */
  lemma AndSpelling(k: string)
    requires |k| == 3 && LowerAll(k) == "and"
    ensures k[0] == 'a' || k[0] == 'A'
  {
    assert Lower(k[0]) == LowerAll(k)[0] == 'a';
  }

  /** `and` in any case, then an `or` of two words: one final operand. */
  lemma AndTailOfOr(k: string, b: string, c: string)
    requires PlainFuzzy(b) && PlainFuzzy(c) && |k| == 3 && LowerAll(k) == "and"
    ensures var r := b + ([' '] + (Word(OrWord) + ([' '] + c)));
            BinaryTail(AndWord, k + ([' '] + r)) == Success([Or({Fuzzy(String(b)), Fuzzy(String(c))})], [])
  {
    var or := Or({Fuzzy(String(b)), Fuzzy(String(c))});
    var t := [' '] + (Word(OrWord) + ([' '] + c));
    var r := b + t;
    assert r[0] == b[0];
    KeywordPrefix("and", k, [' '] + r);
    LitMismatch("and", Word(OrWord) + ([' '] + c), 0, true);
    OrTailIsQuiet(c);
    PairItemOfWord(AndWord, b, t);
    PairsStop(AndWord, [' '] + r);
    OrOfTwo(b, c);
    BinaryTailSteps(AndWord, k + ([' '] + r), [' '] + r, [], r, or, []);
    assert [] + [or] == [or];
  }

  lemma OrTailIsQuiet(c: string)
    ensures var t := [' '] + (Word(OrWord) + ([' '] + c));
            Quiet(t) && t[1..] == Word(OrWord) + ([' '] + c)
  {
    var t := [' '] + (Word(OrWord) + ([' '] + c));
    assert t[0] == ' ' && t[1] == 'o';
  }

  /**
   * `a and b or c`: after the `and`, the rest of the text is one operand, so a
   * different connective nests to the right; `and` is read in any case.
   */
  lemma AndThenOr(a: string, k: string, b: string, c: string)
    requires PlainFuzzy(a) && PlainFuzzy(b) && PlainFuzzy(c) && |k| == 3 && LowerAll(k) == "and"
    ensures var r := b + ([' '] + (Word(OrWord) + ([' '] + c)));
            Expr(a + ([' '] + (k + ([' '] + r))))
            == Success(And({Fuzzy(String(a)), Or({Fuzzy(String(b)), Fuzzy(String(c))})}), [])
  {
    var fa := Fuzzy(String(a));
    var or := Or({Fuzzy(String(b)), Fuzzy(String(c))});
    var r := b + ([' '] + (Word(OrWord) + ([' '] + c)));
    var v := k + ([' '] + r);
    var s := a + ([' '] + v);
    AndWordIsQuiet(k, [' '] + r);
    FirstOperand(a, v);
    ConnectAndOfOr(fa, k, b, c);
    ExprOfConnected(s, fa, [' '] + v, And({fa, or}));
  }

  /** `and` in any case starts a quiet tail: no `in`, `not in` or `=` can be read there. */
  lemma AndWordIsQuiet(k: string, rest: string)
    requires |k| == 3 && LowerAll(k) == "and"
    ensures var v := k + rest; v != [] && !IsWs(v[0]) && Quiet([' '] + v)
  {
    AndSpelling(k);
    assert (k + rest)[0] == k[0] && ([' '] + (k + rest))[1] == k[0];
  }

  /** After an operand, ` and b or c` connects it to the `or` of the last two words. */
  lemma ConnectAndOfOr(x: Rule, k: string, b: string, c: string)
    requires WellFormed(x) && PlainFuzzy(b) && PlainFuzzy(c) && |k| == 3 && LowerAll(k) == "and"
    ensures var v := k + ([' '] + (b + ([' '] + (Word(OrWord) + ([' '] + c)))));
            Connect(x, [' '] + v, true) == Success(And({x, Or({Fuzzy(String(b)), Fuzzy(String(c))})}), [])
  {
    var or := Or({Fuzzy(String(b)), Fuzzy(String(c))});
    var v := k + ([' '] + (b + ([' '] + (Word(OrWord) + ([' '] + c)))));
    AndWordIsQuiet(k, [' '] + (b + ([' '] + (Word(OrWord) + ([' '] + c)))));
    SkipOne(' ', v);
    AndTailOfOr(k, b, c);
    ConnectAndAfterWs(x, [' '] + v, v, [or], []);
    ElementsOfTwo(x, or);
  }

  /** A plain word, a space and more text: the word is the first operand. */
  lemma FirstOperand(a: string, v: string)
    requires PlainFuzzy(a) && v != [] && !IsWs(v[0]) && Quiet([' '] + v)
    ensures var s := a + ([' '] + v);
            s != [] && !IsWs(s[0]) && s[0] != '(' && Ws([' '] + v) == Some(v)
            && NoOrBasic(s) == Success(Fuzzy(String(a)), [' '] + v)
  {
    assert (a + ([' '] + v))[0] == a[0];
    SkipOne(' ', v);
    FuzzyWord(a, [' '] + v);
  }

  lemma NestingText()
    ensures "a" + ([' '] + ("AND" + ([' '] + ("b" + ([' '] + ("or" + ([' '] + "c"))))))) == "a AND b or c"
  {
  }

  /** `a AND b or c` is `And(a, Or(b, c))`. */
  lemma ConnectivesNestToTheRight()
    ensures Parse("a AND b or c") == Ok(And({Fuzzy(String("a")), Or({Fuzzy(String("b")), Fuzzy(String("c"))})}))
  {
    assert LowerAll("AND") == "and";
    AndThenOr("a", "AND", "b", "c");
    NestingText();
  }

  // ---------------------------------------------------------------------
  // Printed forms that read back as another rule

  /** The only enumeration of a one-element set. */
  lemma SingletonEnumeration(x: Rule, xs: seq<Rule>)
    requires IsEnumeration({x}, xs)
    ensures xs == [x]
  {
    assert x in xs;
    assert xs[|xs| - 1] == x;
    assert xs[0] == x;
  }

  /** A chain printed from one operand is that operand in parentheses. */
  lemma OneOperandText(parent: Rule, x: Rule, sep: string, iterate: set<Rule> -> seq<Rule>)
    requires Enumerates(iterate)
    requires (parent.And? || parent.Or?) && x in parent.subrules
    ensures JoinText(parent, [x], sep, true, iterate) == ParenText(x, [], iterate)
  {
    assert [x][1..] == [];
  }

  /** Text in parentheses reads back as the rule inside. */
  lemma ParenTextParses(x: Rule, iterate: set<Rule> -> seq<Rule>)
    requires Enumerates(iterate) && Printable(x)
    ensures Parse(ParenText(x, [], iterate)) == Ok(x)
  {
    ParenExprRoundTrip(x, [], iterate);
  }

  lemma SingletonAndText(x: Rule, iterate: set<Rule> -> seq<Rule>)
    requires Enumerates(iterate)
    ensures RuleText(And({x}), iterate) == ParenText(x, [], iterate)
  {
    SingletonEnumeration(x, iterate({x}));
    OneOperandText(And({x}), x, " and ", iterate);
  }

  lemma SingletonOrText(x: Rule, iterate: set<Rule> -> seq<Rule>)
    requires Enumerates(iterate)
    ensures RuleText(Or({x}), iterate) == ParenText(x, [], iterate)
  {
    SingletonEnumeration(x, iterate({x}));
    OneOperandText(Or({x}), x, " or ", iterate);
  }

  /** A one-subrule `And` prints as its subrule in parentheses, which reads back as the subrule. */
  lemma SingletonAndReadsAsSubrule(x: Rule, iterate: set<Rule> -> seq<Rule>)
    requires Enumerates(iterate) && Printable(x)
    ensures Parse(RuleText(And({x}), iterate)) == Ok(x)
  {
    SingletonAndText(x, iterate);
    ParenTextParses(x, iterate);
  }

  /** The same for `Or`. */
  lemma SingletonOrReadsAsSubrule(x: Rule, iterate: set<Rule> -> seq<Rule>)
    requires Enumerates(iterate) && Printable(x)
    ensures Parse(RuleText(Or({x}), iterate)) == Ok(x)
  {
    SingletonOrText(x, iterate);
    ParenTextParses(x, iterate);
  }

  /**
   * As written, `format_string` prints the key `no` bare, so `no not in <range>`,
   * printed for a non-match of the key `no`, reads back as the negation of a match of the key `not`.
   */
  lemma NoKeyAsWrittenMisread(t: string)
    requires IsIpText(t)
    ensures Parse(FormatStringAsWritten("no") + " not in " + t) == Ok(No(Match(String("not"), IP(t))))
  {
    assert IsUnquotedToken("no");
    PlainWord("not");
    assert FormatStringAsWritten("no") + " not in " + t == "no " + ("not" + " in " + t);
    PrintedReadsBack(No(Match(String("not"), IP(t))), "no " + ("not" + " in " + t));
  }

  /** With the key quoted, the non-match reads back as itself. */
  lemma NoKeyReadsBack(t: string)
    requires IsIpText(t)
    ensures FormatString("no") == "\"no\""
    ensures Parse(FormatString("no") + " not in " + t) == Ok(NonMatch(String("no"), IP(t)))
  {
    assert LowerAll("no") == "no";
    assert JsonQuote("no") == "\"no\"";
    var r := NonMatch(String("no"), IP(t));
    StringKeyRoundTrip(r, []);
    assert FormatString("no") + (PairSeparator(r) + AtomText(IP(t)) + []) == FormatString("no") + " not in " + t;
    QuotedLeadParses(FormatString("no") + " not in " + t, r);
  }

  /**
   * As written, `format_string` prints a string that looks like an address bare,
   * and `basic` reads it as an IP literal before it tries a string.
   */
  lemma AddressStringAsWrittenMisread(t: string)
    requires IsIpText(t) && IsUnquotedToken(t)
    ensures Parse(FormatStringAsWritten(t)) == Ok(Fuzzy(IP(t)))
  {
    PrintedReadsBack(Fuzzy(IP(t)), t);
  }

  /** With such strings quoted, the fuzzy string reads back as itself. */
  lemma AddressStringReadsBack(t: string)
    requires IsIpText(t)
    ensures FormatString(t) == JsonQuote(t)
    ensures Parse(FormatString(t)) == Ok(Fuzzy(String(t)))
  {
    AddressIsQuoted(t);
    var q := FormatString(t);
    BasicOfString(t, []);
    NoTailAfter([]);
    assert q + [] == q;
    QuotedLeadParses(q, Fuzzy(String(t)));
  }

  lemma AddressIsQuoted(t: string)
    requires IsIpText(t)
    ensures FormatString(t) == JsonQuote(t) && FormatString(t)[0] == '"'
  {
    IpRoundTrip(t, []);
    assert t + [] == t;
  }

  /** A text that starts with a quote and that `basic` reads whole is read whole by `parse`. */
  lemma QuotedLeadParses(s: string, r: Rule)
    requires s != [] && s[0] == '"' && Basic(s) == Success(r, [])
    ensures Parse(s) == Ok(r)
  {
    NoRuleRejects(s);
    NoOrBasicOfBasic(s);
    ExprOfUnit(s);
    ParseOfWhole(s, r);
  }

  /** `no a=b` is the negation of a match. */
  lemma NoExample()
    ensures Parse("no a=b") == Ok(No(Match(String("a"), String("b"))))
  {
    PlainWord("a");
    PlainWord("b");
    PrintedReadsBack(No(Match(String("a"), String("b"))), "no a=b");
  }
}
