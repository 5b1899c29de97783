/**
 * The grammar of the rule language (`_create_parser` in
 * abusehelper/core/rules/rulelang.py), one function per grammar rule.
 *
 * The combinators are written out: `seq` threads the rest of the input,
 * `union` is ordered choice committed to its first success, `maybe(p)` falls
 * back to the input unchanged, `repeat` is greedy, and `step(first, (tail, f)...,
 * default)` reads `first` and then tries each tail in order, using the default
 * only when no tail matches. Every recursive call is made on a strictly shorter
 * input or, at the same input, on a rule of lower rank.
 */
module Grammar {
  import opened Wrappers
  import opened Text
  import opened Rules
  import opened Lexer

  /** `maybe(txt(lit))`. */
  function Optional(lit: string, s: string): (r: string)
    ensures |r| <= |s|
  {
    match Lit(lit, s, false)
    case Some(t) => t
    case None => s
  }

  /** `union(star_parser, regexp_parser, string_parser)`: the value after `=` or `!=`. */
  function ValueAtom(s: string): (r: Parsed<Atom>)
    ensures r.Success? ==> |r.rest| < |s|
  {
    if StarP(s).Success? then StarP(s)
    else if RegexpP(s).Success? then RegexpP(s)
    else StringP(s)
  }

  /** `ws "in" ws ip` with the keyword in any case. */
  function InIp(s: string): (r: Parsed<Atom>)
    ensures r.Success? ==> |r.rest| < |s| && r.value.IP?
  {
    if Ws(s).None? || Lit("in", Ws(s).value, true).None? then Fail
    else
      var t := Lit("in", Ws(s).value, true).value;
      if Ws(t).None? then Fail else IpP(Ws(t).value)
  }

  /** `match_tail`: `ws? "=" "="? ws? value`, else `ws "in" ws ip`. */
  function MatchTail(s: string): (r: Parsed<Atom>)
    ensures r.Success? ==> |r.rest| < |s|
  {
    var eq := Lit("=", SkipWs(s), false);
    var first := if eq.Some? then ValueAtom(SkipWs(Optional("=", eq.value))) else Fail;
    if first.Success? then first else InIp(s)
  }

  /** `non_match_tail`: `ws? "!=" ws? value`, else `ws "not" ws "in" ws ip`. */
  function NonMatchTail(s: string): (r: Parsed<Atom>)
    ensures r.Success? ==> |r.rest| < |s|
  {
    var ne := Lit("!=", SkipWs(s), false);
    var first := if ne.Some? then ValueAtom(SkipWs(ne.value)) else Fail;
    if first.Success? then first
    else if Ws(s).None? || Lit("not", Ws(s).value, true).None? then Fail
    else InIp(Lit("not", Ws(s).value, true).value)
  }

  /** The rules `basic` builds. */
  predicate IsBasic(r: Rule)
  {
    r.Match? || r.NonMatch? || r.Fuzzy?
  }

  lemma BasicIsWellFormed(r: Rule)
    requires IsBasic(r)
    ensures WellFormed(r)
  {
  }

  /** The connectives of `binary_rule_tail`. */
  datatype Connective = AndWord | OrWord

  function Word(c: Connective): string
  {
    match c
    case AndWord => "and"
    case OrWord => "or"
  }

  /**
   * `step(initial, (match_tail, Match), (non_match_tail, NonMatch), default)`
   * once `key` has been read and `s` is what follows it.
   */
  function KeyTails(key: Atom, s: string, fuzzyByDefault: bool): (r: Parsed<Rule>)
    ensures r.Success? ==> |r.rest| <= |s| && IsBasic(r.value)
  {
    var m := MatchTail(s);
    if m.Success? then Success(Match(key, m.value), m.rest)
    else
      var n := NonMatchTail(s);
      if n.Success? then Success(NonMatch(key, n.value), n.rest)
      else if fuzzyByDefault then Success(Fuzzy(key), s)
      else Fail
  }

  /**
   * `basic`: a `*` that must be followed by a match or non-match tail; else a
   * regexp or IP literal on its own, which is fuzzy; else a string followed by a
   * match tail, a non-match tail, or nothing (fuzzy).
   */
  function Basic(s: string): (r: Parsed<Rule>)
    ensures r.Success? ==> |r.rest| < |s| && IsBasic(r.value)
  {
    var star := if StarP(s).Success? then KeyTails(Star, StarP(s).rest, false) else Fail;
    if star.Success? then star
    else if RegexpP(s).Success? then Success(Fuzzy(RegexpP(s).value), RegexpP(s).rest)
    else if IpP(s).Success? then Success(Fuzzy(IpP(s).value), IpP(s).rest)
    else if StringP(s).Success? then KeyTails(StringP(s).value, StringP(s).rest, true)
    else Fail
  }

  /** `union(no_parser, basic)`. */
  function NoOrBasic(s: string): (r: Parsed<Rule>)
    ensures r.Success? ==> |r.rest| < |s| && WellFormed(r.value)
    decreases |s|, 2
  {
    var no := NoRule(s);
    if no.Success? then no
    else
      var b := Basic(s);
      if b.Success? then BasicIsWellFormed(b.value); b else Fail
  }

  /** `no_parser`: the keyword `no`, then `ws? (expr)` or `ws` and a negated `no`/basic rule. */
  function NoRule(s: string): (r: Parsed<Rule>)
    ensures r.Success? ==> |r.rest| < |s| && WellFormed(r.value) && r.value.No?
    decreases |s|, 1
  {
    if Lit("no", s, true).None? then Fail
    else
      var t := Lit("no", s, true).value;
      var p := Parens(SkipWs(t));
      if p.Success? then Success(No(p.value), p.rest)
      else if Ws(t).None? then Fail
      else
        var q := NoOrBasic(Ws(t).value);
        if q.Success? then Success(No(q.value), q.rest) else Fail
  }

  /** `parens_expr`: `"(" expr ")"`. */
  function Parens(s: string): (r: Parsed<Rule>)
    ensures r.Success? ==> |r.rest| < |s| && WellFormed(r.value)
    decreases |s|, 1
  {
    if s == [] || s[0] != '(' then Fail
    else
      var e := Expr(s[1..]);
      if e.Success? && e.rest != [] && e.rest[0] == ')' then Success(e.value, e.rest[1..]) else Fail
  }

  /**
   * One operand of an `and`/`or` chain followed by the connective:
   * `union(ws? parens_expr ws?, ws (no|basic) ws) name`, the union committed to
   * its first success.
   */
  function PairItem(name: Connective, s: string): (r: Parsed<Rule>)
    ensures r.Success? ==> |r.rest| < |s| && WellFormed(r.value)
    decreases |s|, 2
  {
    var p := Parens(SkipWs(s));
    var operand :=
      if p.Success? then Success(p.value, SkipWs(p.rest))
      else if Ws(s).None? then Fail
      else
        var q := NoOrBasic(Ws(s).value);
        if q.Success? && Ws(q.rest).Some? then Success(q.value, Ws(q.rest).value) else Fail;
    if operand.Fail? || Lit(Word(name), operand.rest, true).None? then Fail
    else Success(operand.value, Lit(Word(name), operand.rest, true).value)
  }

  /** `repeat(...)`: as many operand-and-connective pairs as there are. */
  function Pairs(name: Connective, s: string): (r: Parsed<seq<Rule>>)
    ensures r.Success? && |r.rest| <= |s|
    ensures forall x :: x in r.value ==> WellFormed(x)
    decreases |s|, 3
  {
    var item := PairItem(name, s);
    if item.Fail? then Success([], s)
    else
      var more := Pairs(name, item.rest);
      Success([item.value] + more.value, more.rest)
  }

  /**
   * `binary_rule_tail(name)`: the connective, the pairs, and a final operand
   * that is a parenthesised expression or whitespace and a whole expression.
   * Answers every operand after the first one.
   */
  function BinaryTail(name: Connective, s: string): (r: Parsed<seq<Rule>>)
    ensures r.Success? ==> |r.rest| < |s| && |r.value| > 0
    ensures r.Success? ==> forall x :: x in r.value ==> WellFormed(x)
    decreases |s|, 0
  {
    if Lit(Word(name), s, true).None? then Fail
    else
      var pairs := Pairs(name, Lit(Word(name), s, true).value);
      var last :=
        if Parens(pairs.rest).Success? then Parens(pairs.rest)
        else if Ws(pairs.rest).None? then Fail
        else Expr(Ws(pairs.rest).value);
      if last.Success? then Success(pairs.value + [last.value], last.rest) else Fail
  }

  /** The first operand and what follows it joined by the first connective that matches. */
  function Connect(x: Rule, s: string, needWs: bool): (r: Parsed<Rule>)
    requires WellFormed(x)
    ensures r.Success? ==> |r.rest| <= |s| && WellFormed(r.value)
    decreases |s|, 1
  {
    var t := if needWs then Ws(s) else Some(SkipWs(s));
    var and := if t.Some? then BinaryTail(AndWord, t.value) else Fail;
    var or := if t.Some? then BinaryTail(OrWord, t.value) else Fail;
    if and.Success? then
      assert x in Elements([x] + and.value);
      Success(And(Elements([x] + and.value)), and.rest)
    else if or.Success? then
      assert x in Elements([x] + or.value);
      Success(Or(Elements([x] + or.value)), or.rest)
    else Success(x, s)
  }

  /**
   * `expr`: optional whitespace, a parenthesised expression or a `no`/basic
   * rule, optionally continued by an `and` or an `or` chain, and optional whitespace.
   */
  function Expr(s: string): (r: Parsed<Rule>)
    ensures r.Success? ==> |r.rest| < |s| && WellFormed(r.value)
    ensures r.Success? ==> r.rest == [] || !IsWs(r.rest[0])
    decreases |s|, 3
  {
    var t := SkipWs(s);
    var p := Parens(t);
    var x := if p.Success? then p else NoOrBasic(t);
    if x.Fail? then Fail
    else
      var c := Connect(x.value, x.rest, !p.Success?);
      Success(c.value, SkipWs(c.rest))
  }

  datatype ParseError = CouldNotParse(text: string)

  /** `parse`: a rule only when the grammar reads the whole text. */
  function Parse(text: string): (r: Result<Rule, ParseError>)
    ensures r.Ok? <==> Expr(text).Success? && Expr(text).rest == []
    ensures r.Ok? ==> r.value == Expr(text).value && WellFormed(r.value)
    ensures r.Err? ==> r.error == CouldNotParse(text)
  {
    var e := Expr(text);
    if e.Success? && e.rest == [] then Ok(e.value) else Err(CouldNotParse(text))
  }

  /** What `rule` accepts: rule text, or a rule built already. */
  datatype RuleArg = Source(text: string) | Built(rule: Rule)

  /** `rule`: text is parsed, a rule is returned as it is. */
  function ToRule(arg: RuleArg): (r: Result<Rule, ParseError>)
    ensures arg.Built? ==> r == Ok(arg.rule)
    ensures arg.Source? ==> r == Parse(arg.text)
  {
    match arg
    case Source(text) => Parse(text)
    case Built(rule) => Ok(rule)
  }
}
