# abusehelper core, modelled in Dafny

This project models the core of abusehelper, an event-processing framework for
abuse handling, and proves properties of the model.

- **Rule language** (`abusehelper/core/rules/rulelang.py`):
  - The atom parsers (`string_parser`, `regexp_parser`, `star_parser`, `ip_parser`) and the `ws` loop.
  - The grammar built by `_create_parser`, with one function per grammar rule, and `parse` / `rule`.
  - The `Formatter`: a registry from types to handlers and the stack walk of `_format`, together with every `format_*` handler.
  - The main theorem: `parse(format(r)) == r`, with `format_string` and `format_regexp` as written, for every rule whose printed form the grammar can read, whatever order the subrules of `And`/`Or` are printed in.
  - Corrected `format_string` quoting and slash escaping, for the findings below.
- **Rule algebra** (`abusehelper/core/rules/tests/test_rules.py`): atoms, rules, the construction API of `And`/`Or`/`Match`/`NonMatch`/`Fuzzy`, and `rule.match` with its memo cache. The construction API is modelled as the tests assert it. What each kind of rule means for an event is assumed, as stated under "Left out".
- **Bot parameters** (`abusehelper/core/bot.py`):
  - `Param`/`BoolParam` and their declaration-order counter;
  - `optparse_name` and `grouped_params`;
  - the positional arguments of `params_from_command_line`;
  - the defaults, INI overlay and precedence of `from_command_line`;
  - `Bot.__init__`.
- **PhishTank bot** (`abusehelper/contrib/phishtank/phishtankbot.py`):
  - `_replace_non_xml_chars`;
  - the `BZ2Reader` class, whose methods update its buffer and offset in place;
  - `_handle_entry`'s filtering and its once-per-URL deduplication through the shared `sites` dict.
- **Configuration helpers** (`abusehelper/core/config.py`): `flatten` and `HashableFrozenDict` with its cached hash.

Modules:

| file | module | what it holds |
|---|---|---|
| wrappers.dfy | Wrappers | `Option`, `Result` |
| text.dfy | Text | ASCII lower-casing, substring search, a sequence regrouping lemma |
| rules.dfy | Rules | atoms, rules, construction, evaluation with the cache (`MatchCache` class) |
| lexer.dfy | Lexer | `ws`, literals, the string/JSON, regexp, star and IP atoms, both slash escapings |
| grammar.dfy | Grammar | `expr` and its sub-rules, `parse`, `rule` |
| formatter.dfy | Formatter | the `Formatter` class, handlers, the printed text of rules and atoms |
| roundtrip.dfy | RoundTrip | printed rules are read back by the grammar |
| parse_cases.dfy | ParseCases | concrete parses, nesting of connectives, the findings below |
| bot.dfy | BotParams | parameters, grouping, command line, INI file, `Bot` |
| phishtank.dfy | PhishTank | `_replace_non_xml_chars`, line splitting, the `BZ2Reader` class |
| phishtank_entries.dfy | PhishTankEntries | `_handle_entry` and the `sites` dict of one poll (`Poll` class) |
| config.dfy | Config | `flatten`, `HashableFrozenDict` |

**How Python objects map to Dafny:**
- Python objects that are updated in place become classes whose methods say what they modify:
  - the formatter registry;
  - the match cache;
  - the parameter counter and `Param`;
  - `Bot`;
  - the `BZ2Reader` buffers;
  - the `sites` dict of a poll;
  - the frozen dict's hash cache.
- Loops in the source become methods with loop invariants. Each is proved equal to a specification function, and the properties are proved about that function.
- A parser's cursor `(text, start, end)` becomes the unconsumed slice of the text. Only the `ws` loop keeps the explicit indices.

## Model

Source paths are relative to the repository root. `rulelang.py` is `abusehelper/core/rules/rulelang.py`.

| member | source | states |
|---|---|---|
| Rules.MakeMatch | abusehelper/core/rules/tests/test_rules.py:87-101 | `Match(key, value)` succeeds exactly when both arguments coerce. Text becomes a String atom, a compiled expression a RegExp atom, an omitted argument the wildcard. The rule holds exactly the coerced atoms. |
| Rules.MakeNonMatch | abusehelper/core/rules/tests/test_rules.py:112-126 | The same coercion and failure condition for `NonMatch`. |
| Rules.MakeFuzzy | abusehelper/core/rules/tests/test_rules.py:137-165 | `Fuzzy` succeeds exactly for the arguments that denote an atom. The rule holds the coerced atom: text becomes a String atom, a compiled expression a RegExp atom. |
| Rules.FuzzyConstructionMeaning | abusehelper/core/rules/tests/test_rules.py:137-159 | For every text and event, `Fuzzy("t")` equals `Fuzzy(String("t"))`. It holds exactly when some key or value contains `t`, in any case. `Fuzzy(re.compile(p))` holds exactly when `p` is found in some key or value. |
| Rules.MakeAnd | abusehelper/core/rules/tests/test_rules.py:21-32 | `And()` raises TypeError exactly when there are no arguments. Otherwise the result is an And whose subrules are exactly the arguments. |
| Rules.MakeOr | abusehelper/core/rules/tests/test_rules.py:47-58 | The same for `Or`. |
| Rules.ConnectivesIgnoreOrderAndRepetition | abusehelper/core/rules/tests/test_rules.py:25-32 | Any two argument lists with the same members build equal Ands and equal Ors: commutativity and deduplication for all inputs. |
| Rules.ConnectiveExamples | abusehelper/core/rules/tests/test_rules.py:22-32 | The asserted cases: `And(a, b) == And(b, a)`, `And(a, a) == And(a)`, and the zero-argument TypeError, for `And` and `Or` alike. |
| Rules.CoercionExamples | abusehelper/core/rules/tests/test_rules.py:88-101 | `Match("a", "b") == Match("a", String("b"))` and `Match("a", re.compile("b")) == Match("a", RegExp("b"))`. The same holds for NonMatch, and `Match()` has two wildcards. |
| Rules.CoerceIsIdempotent | abusehelper/core/rules/tests/test_rules.py:88-94 | Coercion fails only on unsupported arguments. Handing back the atom it produced gives the same atom. |
| Rules.MatchCache.constructor | abusehelper/core/rules/tests/test_rules.py:15 | A new cache is empty. |
| Rules.AnyValueMatches | abusehelper/core/rules/tests/test_rules.py:14-18 | The loop over one key's values finds a value exactly when some value is accepted by the atom. |
| Rules.MatchPairs | abusehelper/core/rules/tests/test_rules.py:14-18 | The loop over the keys is true exactly when some key accepted by the key atom has a value accepted by the value atom. |
| Rules.FuzzyAny | abusehelper/core/rules/tests/test_rules.py:138-159 | The nested loops are true exactly when some key, or some value under any key, is fuzzily accepted by the atom. |
| Rules.Evaluate | abusehelper/core/rules/tests/test_rules.py:14-18 | `rule.match(event, cache)` answers the rule's meaning on the event and caches that answer for the rule. Every cache entry stays correct for the event. Only the rule and its subrules are added, and existing entries are unchanged. |
| Rules.MatchEvent | abusehelper/core/rules/tests/test_rules.py:138-159 | `rule.match(event)` with a fresh cache answers the rule's meaning. |
| Rules.CachingExample | abusehelper/core/rules/tests/test_rules.py:14-18 | Matching `Match("a", "a")` against an empty event leaves False in the cache for that rule. |
| Rules.FuzzyStringExamples | abusehelper/core/rules/tests/test_rules.py:138-148 | `Fuzzy(String("a"))` matches `a` or `ba` as a key or a value, in any case. |
| Rules.FuzzyStringMiss | abusehelper/core/rules/tests/test_rules.py:144 | `Fuzzy(String("a"))` does not match `{"xy": "xy"}`. |
| Rules.FuzzyRegExpSearches | abusehelper/core/rules/tests/test_rules.py:150-154 | `Fuzzy(RegExp("a"))` searches keys and values without anchoring. |
| Rules.FuzzyRegExpIsCaseSensitive | abusehelper/core/rules/tests/test_rules.py:155-159 | Without the `i` flag, `Fuzzy(RegExp("a"))` matches neither `A` nor `xy`. |
| Lexer.SkipWs | abusehelper/core/rules/rulelang.py:201-209 | Drops exactly the leading run of whitespace. The result is a suffix of the input that does not start with whitespace, and everything dropped is whitespace. |
| Lexer.WsScan | abusehelper/core/rules/rulelang.py:201-209 | The `ws` loop over `(text, start, end)` fails exactly when no whitespace is at `start`. Otherwise it answers the index after the whole run, where `SkipWs` of the slice ends. |
| Lexer.Lit | abusehelper/core/rules/rulelang.py:212-213 | `txt(lit)` succeeds only on text at least as long as the literal, and answers the text after it. |
| Lexer.KeywordIgnoresCase | abusehelper/core/rules/rulelang.py:213 | With `ignore_case=True`, whether a keyword matches depends only on the lower-cased input. |
| Lexer.UnquotedRun | abusehelper/core/rules/rulelang.py:54 | `unquoted_rex` matches the maximal leading run of characters outside `[\s\\()"*!=/]`. |
| Lexer.Hex4RoundTrip | abusehelper/core/rules/rulelang.py:55 | Four hex digits written for a code unit read back as that code unit. |
| Lexer.DecodeBody | abusehelper/core/rules/rulelang.py:63-68 | When decoding a quoted body succeeds, it consumed at least the closing quote. |
| Lexer.DecodeEscapeAll | abusehelper/core/rules/rulelang.py:63-68 | `json.loads` of what `json.dumps` wrote gives every string back, including escapes and surrogate pairs, and stops at the closing quote. |
| Lexer.StringP | abusehelper/core/rules/rulelang.py:58-76 | `string_parser` yields a String atom and consumes input. |
| Lexer.UnquotedRoundTrip | abusehelper/core/rules/rulelang.py:69-74 | An unquoted token is read back whole when no token character follows it. |
| Lexer.QuotedRoundTrip | abusehelper/core/rules/rulelang.py:63-68 | A JSON-quoted string is read back as the quoted value, whatever follows it. |
| Lexer.StringRoundTrip | abusehelper/core/rules/rulelang.py:95-102 | `string_parser` reads the output of `format_string` back as the same string. This holds for the code as written and for the corrected quoting. |
| Lexer.QuotingsAgree | abusehelper/core/rules/rulelang.py:95-102 | `format_string` as written and the corrected quoting print a string alike exactly when it is not a bare token that the grammar reads as `no` or an address. |
| Lexer.StarP | abusehelper/core/rules/rulelang.py:113 | `star_parser` succeeds exactly on text starting with `*` and consumes exactly that character. |
| Lexer.RegexpBody | abusehelper/core/rules/rulelang.py:122 | The body of `/.../` ends at the closing slash, strictly inside the input. |
| Lexer.RegexpP | abusehelper/core/rules/rulelang.py:121-136 | `regexp_parser` yields a RegExp atom only on text starting with `/`. |
| Lexer.RegexpRoundTrip | abusehelper/core/rules/rulelang.py:79-92 | With the corrected slash escaping, `regexp_parser` reads the printed regexp back with the same flag and the slash-escaped pattern. For a pattern without slashes, that is the pattern itself. |
| Lexer.RegexpAsWrittenRoundTrip | abusehelper/core/rules/rulelang.py:79-92 | With `format_regexp` as written, a valid pattern whose slashes are already escaped reads back with the same pattern and flag, whatever follows it that is not an `i` the flag would take. |
| Lexer.EscapeSlashesIdempotent | abusehelper/core/rules/rulelang.py:81-87 | The corrected escaping changes nothing when applied a second time. |
| Lexer.EscapeSlashesAsWrittenNotIdempotent | abusehelper/core/rules/rulelang.py:81-87 | The `re.sub` as written is not idempotent. It escapes `/\\/` to `\/\\/`, and a second pass gives `\/\\\/`. |
| Lexer.EscapedAsWritten | abusehelper/core/rules/rulelang.py:81-92 | On a pattern the corrected escaping leaves alone, the `re.sub` as written changes nothing either, so both `format_regexp`s print it alike. |
| Lexer.EscapeSlashFree | abusehelper/core/rules/rulelang.py:81-87 | A pattern without slashes is left as it is. |
| Lexer.EscapeSlashExample | abusehelper/core/rules/rulelang.py:81-87 | `a/b` is escaped to `a\/b`, by the code as written and by the correction. |
| Lexer.EscapeSlashesAsWrittenExample | abusehelper/core/rules/rulelang.py:81-87 | The `re.sub` as written turns `/\\/` into `\/\\/`, leaving the second slash unescaped. |
| Lexer.EscapeSlashesAsWrittenMissesSlash | abusehelper/core/rules/rulelang.py:79-92 | The valid pattern `/\\/` printed as written reads back short, with a slash left over. |
| Lexer.EscapeSlashesMissesNothing | abusehelper/core/rules/rulelang.py:79-92 | The same pattern, printed with the corrected escaping, reads back whole. |
| Lexer.IpP | abusehelper/core/rules/rulelang.py:105 | `ip_parser` yields an IP atom whose range is address text, and consumes input. |
| Lexer.IpRoundTrip | abusehelper/core/rules/rulelang.py:105-110 | The text `format_ip` prints is read back as the same IP atom. |
| Lexer.IpPrefixStable | abusehelper/core/rules/rulelang.py:105 | Whether `ip_parser` accepts a text does not change when a non-address character follows it. |
| Grammar.ValueAtom | abusehelper/core/rules/rulelang.py:212 | The value union consumes input when it succeeds. RoundTrip.ValueRoundTrip states what it reads. |
| Grammar.InIp | abusehelper/core/rules/rulelang.py:213 | `ws "in" ws ip` yields an IP atom and consumes input. |
| Grammar.MatchTail | abusehelper/core/rules/rulelang.py:211-214 | `match_tail` consumes input when it succeeds. RoundTrip.MatchTailRoundTrip states what it reads. |
| Grammar.NonMatchTail | abusehelper/core/rules/rulelang.py:216-219 | `non_match_tail` consumes input when it succeeds. RoundTrip.NonMatchTailRoundTrip states what it reads. |
| Grammar.KeyTails | abusehelper/core/rules/rulelang.py:222-237 | A `step` after a key yields a Match, NonMatch or Fuzzy rule and never consumes more than it is given. |
| Grammar.Basic | abusehelper/core/rules/rulelang.py:221-239 | `basic` yields a Match, NonMatch or Fuzzy rule and consumes input. |
| Grammar.BasicIsWellFormed | abusehelper/core/rules/rulelang.py:221-239 | Every rule `basic` builds is well formed. |
| Grammar.NoOrBasic | abusehelper/core/rules/rulelang.py:248 | `union(no_parser, basic)` yields a well-formed rule and consumes input. |
| Grammar.NoRule | abusehelper/core/rules/rulelang.py:241-252 | `no_parser` yields a well-formed `No` rule and consumes input. |
| Grammar.Parens | abusehelper/core/rules/rulelang.py:199 | `parens_expr` yields a well-formed rule and consumes input. |
| Grammar.PairItem | abusehelper/core/rules/rulelang.py:263-270 | One operand and connective of `repeat` yields a well-formed rule and consumes input. |
| Grammar.Pairs | abusehelper/core/rules/rulelang.py:262-271 | `repeat` always succeeds, never consumes more than it is given, and yields well-formed operands. |
| Grammar.BinaryTail | abusehelper/core/rules/rulelang.py:254-280 | `binary_rule_tail` yields at least one well-formed operand and consumes input. |
| Grammar.Connect | abusehelper/core/rules/rulelang.py:288-299 | The step after the first operand yields a well-formed rule. |
| Grammar.Expr | abusehelper/core/rules/rulelang.py:284-304 | `expr` yields a well-formed rule, consumes input, and leaves no whitespace in front of what is left. |
| Grammar.Parse | abusehelper/core/rules/rulelang.py:311-315 | `parse` succeeds exactly when `expr` reads the whole text, and then answers the rule `expr` read, which is well formed. Otherwise it fails with an error that carries the text. |
| Grammar.ToRule | abusehelper/core/rules/rulelang.py:318-321 | `rule` parses text and returns a rule unchanged. |
| Formatter.Formatter.constructor | abusehelper/core/rules/rulelang.py:12-13 | A new formatter has an empty registry. |
| Formatter.Formatter.Add | abusehelper/core/rules/rulelang.py:15-16 | `add` registers or replaces one handler and leaves the others alone. |
| Formatter.Formatter.Format | abusehelper/core/rules/rulelang.py:31-48 | The stack walk of `_format` over generators answers exactly the recursive expansion of the object, including the errors for an unregistered type and for bare text at the top. |
| Formatter.Apply | abusehelper/core/rules/rulelang.py:79-192 | The handlers as written, `format_string` and `format_regexp` included. Every part a handler asks for is lower than the object, which is why the walk ends. |
| Formatter.DefaultFormatter | abusehelper/core/rules/rulelang.py:51-192 | The module's formatter holds exactly the ten handlers registered as written. |
| Formatter.FormatObject | abusehelper/core/rules/rulelang.py:324-325 | `format` prints every rule, and every atom but `*`, as its printed form under the handlers as written. `*` on its own is refused. |
| Formatter.DefaultRendersRule | abusehelper/core/rules/rulelang.py:139-192 | With the module's handlers as written, the expansion of any rule is its printed form, whatever order the subrules come in. |
| Formatter.DefaultRendersAtom | abusehelper/core/rules/rulelang.py:79-118 | The expansion of an atom is the text `format_string`, `format_regexp`, `format_ip` or `format_star` prints as written. `format_star`'s bare text cannot start the walk. |
| Formatter.UnregisteredTypeIsRefused | abusehelper/core/rules/rulelang.py:24-29 | An object whose type has no handler is refused, naming the type. |
| Formatter.UnregisteredPartIsRefused | abusehelper/core/rules/rulelang.py:24-29 | A part whose type has no handler makes the whole rule fail. |
| Formatter.SomeOrderEnumerates | abusehelper/core/rules/rulelang.py:166 | Some iteration order over the subrules exists, so the order parameter can always be supplied. |
| RoundTrip.FormatParseRoundTrip | abusehelper/core/rules/rulelang.py:311-325 | `parse(format(r)) == r`, with every handler as written, for every printable rule, in any subrule order. |
| RoundTrip.FormatThenParse | abusehelper/core/rules/rulelang.py:324-325 | The module's `format`, handlers as written, followed by `parse` gives every printable rule back. |
| RoundTrip.ExprRoundTrip | abusehelper/core/rules/rulelang.py:284-304 | `expr` reads any printable rule, printed as written, back, up to the end of the text or a `)`. |
| RoundTrip.BasicRoundTrip | abusehelper/core/rules/rulelang.py:221-239 | `basic` reads a match, non-match or fuzzy rule printed as written back, and `no_parser` rejects it. |
| RoundTrip.ValueRoundTrip | abusehelper/core/rules/rulelang.py:212 | The value union reads every non-IP value printed as written back. |
| RoundTrip.MatchTailRoundTrip | abusehelper/core/rules/rulelang.py:211-214 | `match_tail` reads `=value` or ` in range` back. |
| RoundTrip.NonMatchTailRoundTrip | abusehelper/core/rules/rulelang.py:216-219 | `non_match_tail` reads `!=value` or ` not in range` back, and `match_tail` rejects both. |
| RoundTrip.InIpRoundTrip | abusehelper/core/rules/rulelang.py:213 | ` in ` followed by an address range reads back as that range. |
| RoundTrip.NoRuleRejects | abusehelper/core/rules/rulelang.py:241-252 | `no_parser` fails unless the text starts with `no`, in any case, followed by whitespace or `(`. |
| RoundTrip.NoUnitRoundTrip | abusehelper/core/rules/rulelang.py:184-192 | `no ` and a printed unit read back as the negation. |
| RoundTrip.NoParenRoundTrip | abusehelper/core/rules/rulelang.py:241-252 | `no (` and a printed And/Or read back as the negation. |
| RoundTrip.UnitRoundTrip | abusehelper/core/rules/rulelang.py:248 | `union(no_parser, basic)` reads a printed negation or basic rule back. |
| RoundTrip.ParensRoundTrip | abusehelper/core/rules/rulelang.py:199 | `parens_expr` reads a parenthesised printed rule back, whatever follows it. |
| RoundTrip.PairsRoundTrip | abusehelper/core/rules/rulelang.py:262-271 | `repeat` reads every printed operand but the last, each with its connective. |
| RoundTrip.BinaryTailRoundTrip | abusehelper/core/rules/rulelang.py:254-280 | `binary_rule_tail` reads all printed operands after the first back, in order. |
| RoundTrip.ConnectiveRoundTrip | abusehelper/core/rules/rulelang.py:284-299 | `expr` reads a printed And/Or back as the same set of subrules. |
| ParseCases.ReadsBack | abusehelper/core/rules/rulelang.py:311-325 | Some subrule order reads every printable rule, printed as written, back. |
| ParseCases.PrintedReadsBack | abusehelper/core/rules/rulelang.py:311-325 | If a printable rule prints as written as the same text in every order, that text parses to the rule. |
| ParseCases.MatchExample | abusehelper/core/rules/rulelang.py:233-237 | `a=b` parses as `Match(String("a"), String("b"))`. |
| ParseCases.NonMatchExample | abusehelper/core/rules/rulelang.py:216-219 | `a!=b` parses as a NonMatch. |
| ParseCases.StarKeyExample | abusehelper/core/rules/rulelang.py:222-226 | `*=b` parses as a match with a wildcard key. |
| ParseCases.InRangeExample | abusehelper/core/rules/rulelang.py:213 | `a in 192.0.2.0/24` parses as a match against an IP atom. |
| ParseCases.RegexpExample | abusehelper/core/rules/rulelang.py:228-231 | `/foo/i` parses as a fuzzy case-insensitive regexp. |
| ParseCases.BareStarIsRefused | abusehelper/core/rules/rulelang.py:222-226 | A bare `*` is a parse error, because the wildcard needs a tail. |
| ParseCases.LeftoverIsRefused | abusehelper/core/rules/rulelang.py:311-315 | `a b` is a parse error, because the whole text must be read. |
| ParseCases.NoExample | abusehelper/core/rules/rulelang.py:241-252 | `no a=b` parses as the negation of a match. |
| ParseCases.ConnectivesNestToTheRight | abusehelper/core/rules/rulelang.py:273-276 | `a AND b or c` parses as `And(a, Or(b, c))`. |
| ParseCases.SingletonAndReadsAsSubrule | abusehelper/core/rules/rulelang.py:164-171 | A one-subrule And prints as `(x)`, which parses as `x`. |
| ParseCases.SingletonOrReadsAsSubrule | abusehelper/core/rules/rulelang.py:174-181 | The same for Or. |
| ParseCases.NoKeyAsWrittenMisread | abusehelper/core/rules/rulelang.py:95-102 | As written, a non-match of the key `no` prints as text that parses as `No(Match("not", ...))`. |
| ParseCases.NoKeyReadsBack | abusehelper/core/rules/rulelang.py:95-102 | With the corrected quoting, that non-match reads back as itself. |
| ParseCases.AddressStringAsWrittenMisread | abusehelper/core/rules/rulelang.py:95-102 | As written, a fuzzy string that is address text parses back as a fuzzy IP. |
| ParseCases.AddressStringReadsBack | abusehelper/core/rules/rulelang.py:95-102 | With the corrected quoting, it reads back as the string. |
| BotParams.OrderCounter.constructor | abusehelper/core/bot.py:26 | The class-wide counter starts at the given value. |
| BotParams.Param.constructor | abusehelper/core/bot.py:28-34 | A new parameter keeps its help, short name and default, and takes the counter's value as its order. The counter moves on by one. |
| BotParams.Param.Parse | abusehelper/core/bot.py:39-40 | `Param.parse` answers its argument, or None without one. `BoolParam.parse` flips the default without a value. With a value it gives True for `on/yes/1/true` in any case, False for `off/no/0/false`, and an error for anything else, in both directions. |
| BotParams.DefaultFor | abusehelper/core/bot.py:58-60 | The default is the one passed; otherwise `NO_VALUE` for `Param` and False for `BoolParam`. |
| BotParams.DeclareAll | abusehelper/core/bot.py:33-34 | Parameters declared in turn get consecutive, strictly increasing orders. |
| BotParams.ParseBool | abusehelper/core/bot.py:62-69 | No value gives the negated default. `on/yes/1/true` in any case give True, `off/no/0/false` give False, and anything else is an error, in both directions. |
| BotParams.BoolIgnoresCase | abusehelper/core/bot.py:65-68 | A word reads as its lower-cased spelling does. |
| BotParams.BareFlagFlips | abusehelper/core/bot.py:62-64 | A bare flag turns a False default on and a True default off. A new `BoolParam` turns on. |
| BotParams.OptparseName | abusehelper/core/bot.py:78-79 | Every `_` becomes `-`, and nothing else changes. |
| BotParams.OptparseNameCleans | abusehelper/core/bot.py:78-79 | No `_` is left, a name without `_` is unchanged, and the conversion is idempotent. |
| BotParams.Bites | abusehelper/core/bot.py:93 | `split("_")` gives at least one piece, and no piece contains `_`. |
| BotParams.BitesJoin | abusehelper/core/bot.py:93 | Joining the pieces with `_` gives the name back. |
| BotParams.BitesInjective | abusehelper/core/bot.py:93 | Different names split differently. |
| BotParams.Keys | abusehelper/core/bot.py:96-98 | The keys of a name are exactly the leading runs of its pieces. |
| BotParams.AddBites | abusehelper/core/bot.py:96-99 | The inner loop files each key of the name and keeps the least order per key. |
| BotParams.OrdersAreMinima | abusehelper/core/bot.py:92-99 | After the loops, `orders` holds exactly the keys of the names seen. Each key maps to the least order among the parameters filed under it. |
| BotParams.OrderNamesKey | abusehelper/core/bot.py:99 | With distinct orders, two keys of one length with the same least order are the same key. |
| BotParams.SortKey | abusehelper/core/bot.py:101 | The sort key has one entry per piece, each the order filed under that key. |
| BotParams.SortByKey | abusehelper/core/bot.py:101 | `sorted` answers a permutation of its input. |
| BotParams.SortSorted | abusehelper/core/bot.py:101 | `sorted` answers its input ordered by the sort keys. |
| BotParams.Grouped | abusehelper/core/bot.py:88-101 | `grouped_params` answers a permutation of the parameters. |
| BotParams.GroupedParams | abusehelper/core/bot.py:88-101 | The loops and the sort compute the grouped order. |
| BotParams.GroupedSorted | abusehelper/core/bot.py:101 | The grouped parameters are in non-decreasing order of their tuple keys. |
| BotParams.SharedKeyPrefix | abusehelper/core/bot.py:101 | The sort keys of two names that share a key agree up to that key. |
| BotParams.GroupsAdjacent | abusehelper/core/bot.py:88-101 | With distinct orders, the parameters filed under one key are adjacent in the result. |
| BotParams.Positional | abusehelper/core/bot.py:144-148 | The positional parameters are exactly those without a default. |
| BotParams.CollectPositional | abusehelper/core/bot.py:144-148 | The loop collects them in declaration order. |
| BotParams.ParamsFromCommandLine | abusehelper/core/bot.py:167-178 | The `zip` loop over positional parameters and arguments computes the specified filling, including the first error. |
| BotParams.FillOutcome | abusehelper/core/bot.py:168-176 | Filling fails exactly when an argument that reaches a parameter no option has set does not parse, and the error names that parameter. Otherwise the options are kept and each such parameter holds its parsed argument. |
| BotParams.DefaultsOf | abusehelper/core/bot.py:130-134 | `param_defaults` holds a parameter exactly when it has a default, and maps it to that default. |
| BotParams.DefaultNotFiled | abusehelper/core/bot.py:130-134 | A name no parameter has gets no default. |
| BotParams.Section | abusehelper/core/bot.py:187-189 | The INI section is `ini_section` when it is given and not None; otherwise the command line's `bot_name`, else the default one. The lookup of the default fails exactly when there is no `bot_name` default. |
| BotParams.FirstMissing | abusehelper/core/bot.py:203-205 | Some parameter is reported missing exactly when one has no value, and the one reported has none. |
| BotParams.OverlayOutcome | abusehelper/core/bot.py:192-200 | The INI loop fails exactly when some INI value neither parses nor is given on the command line. Otherwise a parameter whose INI value parses takes it, and the others keep their values. |
| BotParams.OverlayUntouched | abusehelper/core/bot.py:192-200 | The INI loop leaves alone a name no parameter has. |
| BotParams.OverlayFails | abusehelper/core/bot.py:192-200 | The same failure condition, on its own. |
| BotParams.FromCommandLine | abusehelper/core/bot.py:180-207 | The loops of `from_command_line` fail exactly as the specification does. When they succeed, they build a fresh bot whose attributes are the resolved values. |
| BotParams.ResolvedValue | abusehelper/core/bot.py:180-207 | Precedence: the command line, else a parsing INI value, else the default. |
| BotParams.ResolveErrors | abusehelper/core/bot.py:180-207 | Each error names a parameter in that state: its INI value fails, or it has no value from anywhere. |
| BotParams.ValueSource | abusehelper/core/bot.py:202-205 | After the INI loop, a parameter has a value exactly when the command line, the INI file or its default gives one. |
| BotParams.ResolveWithIni | abusehelper/core/bot.py:185-205 | With an INI file, resolution succeeds exactly when the INI loop succeeds and nothing is missing afterwards. |
| BotParams.ResolveSucceedsWithIni | abusehelper/core/bot.py:185-205 | With an INI file, success holds exactly when no INI value fails and every parameter has a value. |
| BotParams.ResolveSucceedsWithoutIni | abusehelper/core/bot.py:185-205 | Without one, success holds exactly when every parameter is on the command line or has a default. |
| BotParams.ResolveSucceeds | abusehelper/core/bot.py:180-207 | `from_command_line` succeeds exactly when no INI value fails and every parameter has a value from somewhere. |
| BotParams.Bot.constructor | abusehelper/core/bot.py:209-211 | `Bot.__init__` sets one attribute per parameter. |
| BotParams.AttributesHold | abusehelper/core/bot.py:209-211 | The attributes are exactly the parameters, each holding its keyword argument. |
| PhishTank.ReplaceNonXml | abusehelper/contrib/phishtank/phishtankbot.py:19-21 | Each character of `_NON_XML` becomes U+FFFD, every other character stays, and the length is kept. |
| PhishTank.ReplaceNonXmlCleans | abusehelper/contrib/phishtank/phishtankbot.py:19-21 | The result has no character outside XML 1.0, and a second pass changes nothing. |
| PhishTank.ReplaceNonXmlKeepsClean | abusehelper/contrib/phishtank/phishtankbot.py:19-21 | Text that is already XML-safe is unchanged. |
| PhishTank.LineLength | abusehelper/contrib/phishtank/phishtankbot.py:54 | A non-empty text has a first line of length between 1 and the text's length. |
| PhishTank.FirstLineEnds | abusehelper/contrib/phishtank/phishtankbot.py:54 | A first line that is not the whole text ends with a break, and a `\r\n` is not split. |
| PhishTank.SplitLinesFlat | abusehelper/contrib/phishtank/phishtankbot.py:54 | `splitlines(True)` loses and adds no byte. |
| PhishTank.SplitLinesJoins | abusehelper/contrib/phishtank/phishtankbot.py:54 | The lines join back. None is empty, every line but the last ends with a break, and no `\r\n` is split. |
| PhishTank.Refill | abusehelper/contrib/phishtank/phishtankbot.py:53-54 | Splitting the kept fragment with new data keeps every byte and the split's promises. |
| PhishTank.BZ2Reader.constructor | abusehelper/contrib/phishtank/phishtankbot.py:25-32 | The buffer holds one empty fragment and nothing is current. |
| PhishTank.BZ2Reader.ReadRaw | abusehelper/contrib/phishtank/phishtankbot.py:34-42 | `_read_raw` answers the next non-empty decompressed chunk, or nothing exactly at the end of the file. No byte is lost. |
| PhishTank.BZ2Reader.FillLineBuffer | abusehelper/contrib/phishtank/phishtankbot.py:48-54 | The loop leaves at least two buffered lines, or one at the end of the file, and loses no byte. |
| PhishTank.BZ2Reader.ReadLine | abusehelper/contrib/phishtank/phishtankbot.py:44-56 | `_read_line` answers a prefix of what is left, and nothing only at the end. Every line before the last ends with a break, and no `\r\n` is split. |
| PhishTank.BZ2Reader.NextLine | abusehelper/contrib/phishtank/phishtankbot.py:71-77 | `_read`'s loop fetches and mangles the next line, or finds the stream exhausted. |
| PhishTank.BZ2Reader.TakeSlice | abusehelper/contrib/phishtank/phishtankbot.py:79-81 | `_read` answers the slice of at most `amount` bytes from the offset and moves the offset past it. |
| PhishTank.BZ2Reader.ReadSome | abusehelper/contrib/phishtank/phishtankbot.py:70-81 | `_read` answers at most `amount` bytes of the current mangled line, and nothing only when the reader is exhausted. |
| PhishTank.BZ2Reader.Read | abusehelper/contrib/phishtank/phishtankbot.py:83-93 | `read` answers exactly `amount` bytes unless the stream runs out. Everything answered is the mangled stream, in order. |
| PhishTank.BZ2Reader.ExhaustedAnsweredAll | abusehelper/contrib/phishtank/phishtankbot.py:44-93 | Once exhausted, the lines read make up the whole stream, and what was answered is those lines mangled one by one. |
| PhishTankEntries.Poll.constructor | abusehelper/contrib/phishtank/phishtankbot.py:202 | A poll starts with an empty `sites`. |
| PhishTankEntries.Poll.HandleEntry | abusehelper/contrib/phishtank/phishtankbot.py:110-180 | `_handle_entry` sends the specified events, updates `sites` as specified, and raises exactly where the specification does. |
| PhishTankEntries.Poll.ScanDetails | abusehelper/contrib/phishtank/phishtankbot.py:148-180 | The detail loop sends and records the specified pairs, and stops at the specified raise. |
| PhishTankEntries.UnreportedSendsNothing | abusehelper/contrib/phishtank/phishtankbot.py:112-144 | An entry without a url, verified "yes", online "yes" or details sends nothing and leaves `sites` alone. |
| PhishTankEntries.Pairs | abusehelper/contrib/phishtank/phishtankbot.py:148-158 | The reportable pairs are exactly those of details with an `ip_address` and an announcing network's text. |
| PhishTankEntries.ScanSendsNew | abusehelper/contrib/phishtank/phishtankbot.py:160-163 | Every event sent carries a pair of the details that was not known for the url. |
| PhishTankEntries.ScanRaises | abusehelper/contrib/phishtank/phishtankbot.py:160-168 | The scan raises exactly when the url element has no text and some pair is new for it, because `urlparse(None)` fails. Without a url text nothing is sent. |
| PhishTankEntries.ScanGrows | abusehelper/contrib/phishtank/phishtankbot.py:160-163 | Raise or not, the scan only adds to `sites`. |
| PhishTankEntries.ScanSites | abusehelper/contrib/phishtank/phishtankbot.py:160-163 | After a scan that did not raise, `sites` holds under the url exactly the previous pairs plus the details' pairs. |
| PhishTankEntries.ScanSendsOnce | abusehelper/contrib/phishtank/phishtankbot.py:160-163 | No pair is sent twice for one entry. |
| PhishTankEntries.ScanSendsAllNew | abusehelper/contrib/phishtank/phishtankbot.py:148-180 | For a url with text, every reportable pair that was not known is sent. |
| PhishTankEntries.ReportedEntrySends | abusehelper/contrib/phishtank/phishtankbot.py:110-180 | An entry that passes the checks and whose url has text sends each unknown pair exactly once, with the entry's url, host, time and target, and `sites` gains exactly those pairs. Without a url text it sends nothing, and it raises exactly when a pair is new. |
| PhishTankEntries.HandledSends | abusehelper/contrib/phishtank/phishtankbot.py:110-180 | One entry's events are new, distinct and remembered, and `sites` only grows. |
| PhishTankEntries.JoinSends | abusehelper/contrib/phishtank/phishtankbot.py:202-209 | Two runs, one after the other, keep those properties. |
| PhishTankEntries.PollSendsOnce | abusehelper/contrib/phishtank/phishtankbot.py:202-209 | Over a whole poll, which ends at the first raise, each (url, ip, network) is sent at most once, and never one known when the poll began. |
| Config.FlattenYieldsLeaves | abusehelper/core/config.py:54-81 | `flatten` yields every plain value inside, once per occurrence, and nothing else. |
| Config.FlattenAllYieldsLeaves | abusehelper/core/config.py:79-81 | The same for the items of an iterable. |
| Config.FlattenAllAppend | abusehelper/core/config.py:79-81 | Flattening two runs of items one after the other flattens each in turn. |
| Config.FlattenFlat | abusehelper/core/config.py:73-81 | A flat list of plain values flattens to itself. |
| Config.FlattenListExamples | abusehelper/core/config.py:56-65 | `flatten([1, 2])` gives `[1, 2]`, and `flatten(list)` gives `[]`. |
| Config.FlattenNestedExample | abusehelper/core/config.py:58-59 | `flatten([[1, [2, 3]], 4])` gives `[1, 2, 3, 4]`. |
| Config.FlattenRangesExample | abusehelper/core/config.py:61-62 | `flatten([xrange(1, 3), xrange(3, 5)])` gives `[1, 2, 3, 4]`. |
| Config.Items | abusehelper/core/config.py:14-21 | The hashed items are exactly the keys paired with their value, or with the sentinel for an unhashable one. |
| Config.HashableFrozenDict.constructor | abusehelper/core/config.py:23-25 | The keyword arguments win over the mapping, and the hash cache starts empty. |
| Config.HashableFrozenDict.Hash | abusehelper/core/config.py:27-33 | `__hash__` answers the hash of the contents and caches it. A cached hash is answered unchanged. |
| Config.HashableFrozenDict.Equals | abusehelper/core/config.py:35-36 | `__eq__` holds exactly when the keys and values agree. |
| Config.HashableFrozenDict.Get | abusehelper/core/config.py:38-39 | `__getitem__` answers the value, or KeyError exactly for a missing key. |
| Config.HashableFrozenDict.Keys | abusehelper/core/config.py:41-42 | `__iter__` covers exactly the keys `__contains__` accepts. |
| Config.HashableFrozenDict.Len | abusehelper/core/config.py:44-45 | `__len__` is the number of keys. |
| Config.HashableFrozenDict.Rebuilt | abusehelper/core/config.py:50-51 | Unpickling `__reduce__`'s answer gives an equal frozen dict with an empty cache. |
| Config.EqualDictsHashAlike | abusehelper/core/config.py:27-36 | Equal frozen dicts hash alike, whatever their caches hold. |
| Config.UnhashableValuesIgnored | abusehelper/core/config.py:14-21 | Values of keys where neither value is hashable do not affect the hash, so hashing never fails on a value. |
| Config.TypeSeparatesHashes | abusehelper/core/config.py:32 | Because the type's hash is mixed in, the same items hash differently under two different types, so a frozen dict never collides with another type over the same items. |
| Config.SameTypeHashesAlike | abusehelper/core/config.py:31-32 | Two frozen dicts of one type hash alike only when the frozensets of their hashable items hash alike, so the hash tells apart exactly what the items' hash tells apart. |

## Left out

**Modules outside this model.** `atoms.py`, `rules.py`, `iprange.py` and `parsing.py` of the rules package are not part of this model:
- Rules.Holds: what a rule means for an event is assumed, because rules.py and atoms.py are not part of this model. test_rules.py asserts only a few cases, which agree with it. The assumed meaning:
  - Match holds when some key accepted by the key atom has a value accepted by the value atom;
  - NonMatch holds when that is not so;
  - Fuzzy holds when some key or value is accepted fuzzily;
  - And holds when every subrule holds, Or when some subrule holds, and No when its subrule does not.
- The parser combinators are written out in each grammar function.
- Rules.Holds: a String atom matches by ASCII case-insensitive equality. A RegExp atom searches its pattern as literal text, with metacharacters not interpreted. An IP atom matches its own range text. These are stand-ins for `re` and `iprange`.

**Rule language stand-ins.**
- Lexer.Lit: keywords with `ignore_case=True` are compared after folding ASCII letters only. How parsing.py folds case, including non-ASCII letters, is not part of this model.
- Lexer.IpP: the address-range grammar is a stand-in. It reads the longest run of `[0-9./-]` that starts with a digit and contains a dot, and keeps it as text.
- The pickling and `repr`/`eval` round trips of test_rules.py are not modelled.
- JSON decoding follows a wide Python build. Dafny characters cannot be lone surrogates, so an unpaired surrogate escape is refused.
- The order in which a Python set hands out subrules is a parameter `iterate`, which may be any enumeration.

**Contracts weaker than the full behaviour.**
- RoundTrip.FormatParseRoundTrip covers the printable rules, which is weaker than all rules:
  - keys are strings or `*`;
  - regexp patterns have their slashes escaped already;
  - fuzzy atoms are not `*`;
  - every And/Or has at least two subrules. A one-subrule And/Or prints as `(x)` and reads back as `x` (ParseCases.SingletonAndReadsAsSubrule).
- Grammar.ValueAtom, Grammar.InIp, Grammar.MatchTail, Grammar.NonMatchTail, Grammar.KeyTails, Grammar.Basic, Grammar.NoOrBasic, Grammar.NoRule, Grammar.Parens, Grammar.PairItem, Grammar.Pairs, Grammar.BinaryTail, Grammar.Connect and Grammar.Expr: their own contracts state only progress and well-formedness. What each one reads is stated by the RoundTrip and ParseCases lemmas.
- Lexer.RegexpRoundTrip and Lexer.EscapeSlashesIdempotent: these are about the corrected slash escaping. For the code as written, Lexer.RegexpAsWrittenRoundTrip covers patterns whose slashes are already escaped, and Lexer.EscapeSlashesAsWrittenNotIdempotent shows that the escaping as written is not idempotent.
- RoundTrip.FormatParseRoundTrip also leaves out keys and fuzzy strings that `format_string` as written prints bare but the grammar reads as something else: the keyword `no` and text that starts with an address. The Findings table shows each with a counterexample.
- Lexer.StringP and Lexer.RegexpP: their contracts say only which atom results. What they read is stated by Lexer.StringRoundTrip and Lexer.RegexpRoundTrip.

**Bot parameters.**
- `ListParam` and `IntParam` are not modelled; parameters are `Param` or `BoolParam`.
- Option parsing by `optparse` (bot.py:151-167) is not modelled. BotParams.ParamsFromCommandLine takes the values the option callbacks parsed, plus the positional arguments.
- The effect of `parser.error` (exit with a message) is an `Err` result.
- BotParams.ParamsFromCommandLine: a positional value that does not parse is reported as an error naming the parameter. As written, the handler at bot.py:174-176 refers to an unbound name `error`, which would raise NameError instead.
- `Bot.params` (`inspect.getmembers` reflection) and the metaclass that adds a `bot_name` default are not modelled. The parameter list is an input.
- BotParams.SortByKey is an insertion sort proved to produce a permutation ordered by key. It inserts each parameter in front of the later parameters with equal keys, so it keeps input order among equal keys as Python's `sorted` does. That stability is not stated as a lemma. With distinct orders, two distinct names never have equal keys.
- `ConfigParser` file reading is not modelled. The INI file is a map from section to options.

**PhishTank bot.**
- bz2 decompression and the file object are not modelled. `BZ2Reader` is given the decompressed chunks, in order.
- The UTF-8/Latin-1 codecs of `_mangle_line` are function parameters.
- PhishTank.BZ2Reader.ReadLine is proved to answer lines with the properties of `splitlines(True)`. That they equal `SplitLines` of the whole stream is not proved.
- The following are not modelled:
  - XML parsing (`etree.iterparse`, `element.clear`);
  - the HEAD request, the download and the etag check of `poll`;
  - logging.
- `urlparse` and `strptime`/`strftime` are parameters. `urlparse(None)`, for a url element with no text, is modelled as a raise that ends the poll. What the bot does after that is not modelled. The `isinstance(url, basestring)` branch cannot happen for an element and is left out.
- An element's truth value in `if ts:` is not modelled. A verification time element whose text is missing is taken as no time.

**Configuration helpers.**
- A Python string counts as a plain value in `flatten`. In Python a string is iterable, and flattening one recurses without end.
- The hash of the type and the hash of a frozenset are parameters.
- Dict iteration order and `__eq__` against objects that are not mappings are not modelled.
- The rest of config.py and bot.py (config loading, the bot runtime) is outside the modelled core.

## Findings

| source | as written | input that shows it | evidently intended | confidence | as-written member | corrected member |
|---|---|---|---|---|---|---|
| abusehelper/core/rules/rulelang.py:81-87 | `escape_slash_rex` consumes the character before a slash run. A slash preceded only by an escaped backslash, right after an earlier match, is left unescaped. | The pattern `/\\/` prints as `/\/\\//`, which `regexp_parser` reads as `\/\\` with `/` left over, so `parse(format(rule))` fails. | Every unescaped slash is escaped, so the printed regexp reads back whole. | not executed | Lexer.EscapeSlashesAsWrittenMissesSlash | Lexer.EscapeSlashesMissesNothing |
| abusehelper/core/rules/rulelang.py:95-102 | `format_string` prints the string `no` bare. | `NonMatch(String("no"), IP(t))` prints as `no not in t`, which parses as `No(Match(String("not"), IP(t)))`. | Strings that the grammar would read as something else are quoted. | not executed | ParseCases.NoKeyAsWrittenMisread | ParseCases.NoKeyReadsBack |
| abusehelper/core/rules/rulelang.py:95-102 | `format_string` prints a string that is an address literal bare. | `Fuzzy(String("192.0.2.1"))` prints as `192.0.2.1`, which `basic` reads as `Fuzzy(IP(...))`. | Such strings are quoted, so the fuzzy string reads back as a string. | not executed; depends on the address grammar, which is a stand-in here | ParseCases.AddressStringAsWrittenMisread | ParseCases.AddressStringReadsBack |
