/**
 * The rule algebra the rule language reads and prints: atoms, rules, their
 * construction API and evaluation against an event with a memo cache.
 * The defining modules (atoms.py, rules.py) are not part of this model; what is
 * modelled is the behaviour abusehelper/core/rules/tests/test_rules.py asserts.
 */
module Rules {
  import opened Wrappers
  import opened Text

  /** Leaf values. An IP atom keeps the canonical text of its address range. */
  datatype Atom =
    | String(value: string)
    | RegExp(pattern: string, ignoreCase: bool)
    | IP(range: string)
    | Star

  /**
   * Rule nodes. `And`/`Or` hold a set, so equality ignores order and duplicates
   * exactly as the source's structural equality does.
   */
  datatype Rule =
    | Match(key: Atom, value: Atom)
    | NonMatch(key: Atom, value: Atom)
    | Fuzzy(atom: Atom)
    | And(subrules: set<Rule>)
    | Or(subrules: set<Rule>)
    | No(subrule: Rule)

  /** Every `And`/`Or` in the tree has at least one subrule. */
  ghost predicate WellFormed(r: Rule)
  {
    match r
    case And(s) => s != {} && forall x :: x in s ==> WellFormed(x)
    case Or(s) => s != {} && forall x :: x in s ==> WellFormed(x)
    case No(x) => WellFormed(x)
    case _ => true
  }

  // ---------------------------------------------------------------------
  // Construction API

  datatype ConstructError = TypeError

  /** What a caller may hand to a constructor in place of an atom. */
  datatype AtomArg =
    | Text(text: string)                              // plain text
    | Compiled(pattern: string, ignoreCase: bool)     // a compiled regular expression
    | Given(atom: Atom)                               // an atom built already
    | Unsupported                                     // any other Python value

  function Coerce(arg: AtomArg): Result<Atom, ConstructError>
  {
    match arg
    case Text(t) => Ok(String(t))
    case Compiled(p, ic) => Ok(RegExp(p, ic))
    case Given(a) => Ok(a)
    case Unsupported => Err(TypeError)
  }

  /** Coercion turns an argument into the atom it denotes: handing that atom back changes nothing. */
  lemma CoerceIsIdempotent(arg: AtomArg)
    ensures Coerce(arg).Err? <==> arg.Unsupported?
    ensures Coerce(arg).Ok? ==> Coerce(Given(Coerce(arg).value)) == Coerce(arg)
  {
  }

  /** An omitted argument is the wildcard. */
  function CoerceOr(arg: Option<AtomArg>): Result<Atom, ConstructError>
  {
    match arg
    case None => Ok(Star)
    case Some(a) => Coerce(a)
  }

  function MakeMatch(key: Option<AtomArg>, value: Option<AtomArg>): (r: Result<Rule, ConstructError>)
    ensures r.Ok? <==> CoerceOr(key).Ok? && CoerceOr(value).Ok?
    ensures r.Ok? ==> r.value == Match(CoerceOr(key).value, CoerceOr(value).value)
  {
    match (CoerceOr(key), CoerceOr(value))
    case (Ok(k), Ok(v)) => Ok(Match(k, v))
    case (Err(e), _) => Err(e)
    case (_, Err(e)) => Err(e)
  }

  function MakeNonMatch(key: Option<AtomArg>, value: Option<AtomArg>): (r: Result<Rule, ConstructError>)
    ensures r.Ok? <==> CoerceOr(key).Ok? && CoerceOr(value).Ok?
    ensures r.Ok? ==> r.value == NonMatch(CoerceOr(key).value, CoerceOr(value).value)
  {
    match (CoerceOr(key), CoerceOr(value))
    case (Ok(k), Ok(v)) => Ok(NonMatch(k, v))
    case (Err(e), _) => Err(e)
    case (_, Err(e)) => Err(e)
  }

  function MakeFuzzy(atom: AtomArg): (r: Result<Rule, ConstructError>)
    ensures r.Ok? <==> !atom.Unsupported?
    ensures r.Ok? ==> r.value == Fuzzy(Coerce(atom).value)
  {
    match Coerce(atom)
    case Ok(a) => Ok(Fuzzy(a))
    case Err(e) => Err(e)
  }

  function Elements(rules: seq<Rule>): (s: set<Rule>)
    ensures forall x :: x in s <==> x in rules
  {
    set x | x in rules
  }

  /** `And(*rules)`: a TypeError without arguments, otherwise the set of the arguments. */
  function MakeAnd(rules: seq<Rule>): (r: Result<Rule, ConstructError>)
    ensures r.Err? <==> rules == []
    ensures r.Ok? ==> r.value.And? && (forall x :: x in r.value.subrules <==> x in rules)
  {
    if rules == [] then Err(TypeError) else Ok(And(Elements(rules)))
  }

  /** `Or(*rules)`: a TypeError without arguments, otherwise the set of the arguments. */
  function MakeOr(rules: seq<Rule>): (r: Result<Rule, ConstructError>)
    ensures r.Err? <==> rules == []
    ensures r.Ok? ==> r.value.Or? && (forall x :: x in r.value.subrules <==> x in rules)
  {
    if rules == [] then Err(TypeError) else Ok(Or(Elements(rules)))
  }

  /** `And`/`Or` depend only on which subrules are given: order and repetition do not matter. */
  lemma {:induction false} ConnectivesIgnoreOrderAndRepetition(xs: seq<Rule>, ys: seq<Rule>)
    requires forall x :: x in xs <==> x in ys
    ensures MakeAnd(xs) == MakeAnd(ys) && MakeOr(xs) == MakeOr(ys)
  {
    assert Elements(xs) == Elements(ys);
    if ys != [] {
      assert ys[0] in xs;
    }
    if xs != [] {
      assert xs[0] in ys;
    }
  }

  /** The asserted examples: commutativity, deduplication and the zero-argument error. */
  lemma ConnectiveExamples(a: Rule, b: Rule)
    ensures MakeAnd([a, b]) == MakeAnd([b, a]) && MakeOr([a, b]) == MakeOr([b, a])
    ensures MakeAnd([a, a]) == MakeAnd([a]) && MakeOr([a, a]) == MakeOr([a])
    ensures MakeAnd([]) == Err(TypeError) && MakeOr([]) == Err(TypeError)
  {
    ConnectivesIgnoreOrderAndRepetition([a, b], [b, a]);
    ConnectivesIgnoreOrderAndRepetition([a, a], [a]);
  }

  /** Plain text becomes a String atom, a compiled expression a RegExp atom, nothing at all the wildcard. */
  lemma CoercionExamples()
    ensures MakeMatch(Some(Text("a")), Some(Text("b"))) == MakeMatch(Some(Text("a")), Some(Given(String("b"))))
    ensures MakeMatch(Some(Text("a")), Some(Compiled("b", false))) == MakeMatch(Some(Text("a")), Some(Given(RegExp("b", false))))
    ensures MakeNonMatch(Some(Text("a")), Some(Text("b"))) == MakeNonMatch(Some(Text("a")), Some(Given(String("b"))))
    ensures MakeNonMatch(Some(Text("a")), Some(Compiled("b", false))) == MakeNonMatch(Some(Text("a")), Some(Given(RegExp("b", false))))
    ensures MakeMatch(None, None) == Ok(Match(Star, Star)) && MakeNonMatch(None, None) == Ok(NonMatch(Star, Star))
  {
  }

  // ---------------------------------------------------------------------
  // Evaluation

  /** An event: attribute name to the set of its values. */
  type Event = map<string, set<string>>

  /** Regular-expression search, with the pattern read as literal text. */
  predicate Search(pattern: string, s: string, ignoreCase: bool)
  {
    if ignoreCase then Contains(LowerAll(s), LowerAll(pattern)) else Contains(s, pattern)
  }

  /** An atom accepts one key or value. */
  predicate AtomMatches(a: Atom, s: string)
  {
    match a
    case String(v) => LowerAll(v) == LowerAll(s)
    case RegExp(p, ic) => Search(p, s, ic)
    case IP(range) => s == range
    case Star => true
  }

  /** An atom accepts one key or value in a fuzzy rule: a String needs only to occur in it. */
  predicate AtomFuzzy(a: Atom, s: string)
  {
    match a
    case String(v) => Contains(LowerAll(s), LowerAll(v))
    case _ => AtomMatches(a, s)
  }

  ghost predicate MatchHolds(k: Atom, v: Atom, e: Event)
  {
    exists name :: name in e && AtomMatches(k, name) && exists val :: val in e[name] && AtomMatches(v, val)
  }

  ghost predicate FuzzyHolds(a: Atom, e: Event)
  {
    exists name :: name in e && (AtomFuzzy(a, name) || exists val :: val in e[name] && AtomFuzzy(a, val))
  }

  /** What a rule means for an event. */
  ghost predicate Holds(r: Rule, e: Event)
  {
    match r
    case Match(k, v) => MatchHolds(k, v, e)
    case NonMatch(k, v) => !MatchHolds(k, v, e)
    case Fuzzy(a) => FuzzyHolds(a, e)
    case And(s) => forall x :: x in s ==> Holds(x, e)
    case Or(s) => exists x :: x in s && Holds(x, e)
    case No(x) => !Holds(x, e)
  }

  /** The rules a match of `r` may evaluate and cache. */
  ghost function Reachable(r: Rule): set<Rule>
  {
    match r
    case And(s) => {r} + set x, y | x in s && y in Reachable(x) :: y
    case Or(s) => {r} + set x, y | x in s && y in Reachable(x) :: y
    case No(x) => {r} + Reachable(x)
    case _ => {r}
  }

  /** The caller-supplied dict in which `match` memoises results. */
  class MatchCache {
    var entries: map<Rule, bool>

    constructor ()
      ensures entries == map[]
    {
      entries := map[];
    }
  }

  /** Every cached result is the rule's result on `e`: the cache belongs to this one event. */
  ghost predicate Agrees(entries: map<Rule, bool>, e: Event)
  {
    forall k :: k in entries ==> entries[k] == Holds(k, e)
  }

  method AnyValueMatches(v: Atom, vals: set<string>) returns (found: bool)
    ensures found == exists val :: val in vals && AtomMatches(v, val)
  {
    found := false;
    var todo := vals;
    while todo != {} && !found
      invariant todo <= vals
      invariant found ==> exists val :: val in vals && AtomMatches(v, val)
      invariant !found ==> forall val :: val in vals - todo ==> !AtomMatches(v, val)
      decreases todo
    {
      var val :| val in todo;
      found := AtomMatches(v, val);
      todo := todo - {val};
    }
  }

  /** Some key accepted by `k` has some value accepted by `v`. */
  method MatchPairs(k: Atom, v: Atom, e: Event) returns (found: bool)
    ensures found == MatchHolds(k, v, e)
  {
    found := false;
    var names := e.Keys;
    while names != {} && !found
      invariant names <= e.Keys
      invariant found ==> MatchHolds(k, v, e)
      invariant !found ==> forall n :: n in e.Keys - names ==>
                  !(AtomMatches(k, n) && exists val :: val in e[n] && AtomMatches(v, val))
      decreases names
    {
      var n :| n in names;
      if AtomMatches(k, n) {
        found := AnyValueMatches(v, e[n]);
      }
      names := names - {n};
    }
  }

  /** Some key, or some value under any key, is accepted fuzzily by `a`. */
  method FuzzyAny(a: Atom, e: Event) returns (found: bool)
    ensures found == FuzzyHolds(a, e)
  {
    found := false;
    var names := e.Keys;
    while names != {} && !found
      invariant names <= e.Keys
      invariant found ==> FuzzyHolds(a, e)
      invariant !found ==> forall n :: n in e.Keys - names ==>
                  !(AtomFuzzy(a, n) || exists val :: val in e[n] && AtomFuzzy(a, val))
      decreases names
    {
      var n :| n in names;
      found := AtomFuzzy(a, n);
      if !found {
        var vals := e[n];
        while vals != {} && !found
          invariant vals <= e[n]
          invariant found ==> exists val :: val in e[n] && AtomFuzzy(a, val)
          invariant !found ==> forall val :: val in e[n] - vals ==> !AtomFuzzy(a, val)
          decreases vals
        {
          var val :| val in vals;
          found := AtomFuzzy(a, val);
          vals := vals - {val};
        }
      }
      names := names - {n};
    }
  }

  /**
   * `rule.match(event, cache)`: the result is looked up in the cache first and
   * stored in it afterwards, for this rule and for every subrule evaluated.
   */
  method Evaluate(r: Rule, e: Event, cache: MatchCache) returns (b: bool)
    requires Agrees(cache.entries, e)
    modifies cache
    ensures b == Holds(r, e)
    ensures r in cache.entries && cache.entries[r] == b
    ensures Agrees(cache.entries, e)
    ensures old(cache.entries).Keys <= cache.entries.Keys <= old(cache.entries).Keys + Reachable(r)
    ensures forall k :: k in old(cache.entries) ==> cache.entries[k] == old(cache.entries[k])
    decreases r, 1
  {
    if r in cache.entries {
      return cache.entries[r];
    }
    match r {
      case Match(k, v) =>
        b := MatchPairs(k, v, e);
      case NonMatch(k, v) =>
        var m := MatchPairs(k, v, e);
        b := !m;
      case Fuzzy(a) =>
        b := FuzzyAny(a, e);
      case No(x) =>
        var m := Evaluate(x, e, cache);
        b := !m;
      case And(_) =>
        b := EvaluateAll(r, e, cache);
      case Or(_) =>
        b := EvaluateAny(r, e, cache);
    }
    cache.entries := cache.entries[r := b];
  }

  /** `And.match`: every subrule in turn, stopping at the first that does not hold. */
  method EvaluateAll(r: Rule, e: Event, cache: MatchCache) returns (b: bool)
    requires r.And? && Agrees(cache.entries, e)
    modifies cache
    ensures b == Holds(r, e)
    ensures Agrees(cache.entries, e)
    ensures old(cache.entries).Keys <= cache.entries.Keys <= old(cache.entries).Keys + Reachable(r)
    ensures forall k :: k in old(cache.entries) ==> cache.entries[k] == old(cache.entries[k])
    decreases r, 0
  {
    b := true;
    var todo := r.subrules;
    while todo != {} && b
      invariant todo <= r.subrules
      invariant b ==> forall x :: x in r.subrules - todo ==> Holds(x, e)
      invariant !b ==> !Holds(r, e)
      invariant Agrees(cache.entries, e)
      invariant old(cache.entries).Keys <= cache.entries.Keys <= old(cache.entries).Keys + Reachable(r)
      invariant forall k :: k in old(cache.entries) ==> cache.entries[k] == old(cache.entries[k])
      decreases todo
    {
      var x :| x in todo;
      b := Evaluate(x, e, cache);
      todo := todo - {x};
    }
  }

  /** `Or.match`: every subrule in turn, stopping at the first that holds. */
  method EvaluateAny(r: Rule, e: Event, cache: MatchCache) returns (b: bool)
    requires r.Or? && Agrees(cache.entries, e)
    modifies cache
    ensures b == Holds(r, e)
    ensures Agrees(cache.entries, e)
    ensures old(cache.entries).Keys <= cache.entries.Keys <= old(cache.entries).Keys + Reachable(r)
    ensures forall k :: k in old(cache.entries) ==> cache.entries[k] == old(cache.entries[k])
    decreases r, 0
  {
    b := false;
    var todo := r.subrules;
    while todo != {} && !b
      invariant todo <= r.subrules
      invariant !b ==> forall x :: x in r.subrules - todo ==> !Holds(x, e)
      invariant b ==> Holds(r, e)
      invariant Agrees(cache.entries, e)
      invariant old(cache.entries).Keys <= cache.entries.Keys <= old(cache.entries).Keys + Reachable(r)
      invariant forall k :: k in old(cache.entries) ==> cache.entries[k] == old(cache.entries[k])
      decreases todo
    {
      var x :| x in todo;
      b := Evaluate(x, e, cache);
      todo := todo - {x};
    }
  }

  /** `rule.match(event)` without a cache of the caller's: a fresh one is used. */
  method MatchEvent(r: Rule, e: Event) returns (b: bool)
    ensures b == Holds(r, e)
  {
    var cache := new MatchCache();
    b := Evaluate(r, e, cache);
  }

  /** The cache test: matching `Match("a", "a")` against an empty event caches False for that rule. */
  method CachingExample() returns (cached: bool)
    ensures !cached
  {
    var cache := new MatchCache();
    var rule := Match(String("a"), String("a"));
    var b := Evaluate(rule, map[], cache);
    cached := cache.entries[rule];
  }

  /** Fuzzy String matching is a case-insensitive substring test on keys and values. */
  /**
   * `Fuzzy("t")` is `Fuzzy(String("t"))` and holds exactly when some key or
   * value contains `t`, whatever the case; `Fuzzy(re.compile(p))` holds exactly
   * when the pattern is found in some key or value.
   */
  lemma FuzzyConstructionMeaning(t: string, p: string, ic: bool, e: Event)
    ensures MakeFuzzy(Text(t)) == MakeFuzzy(Given(String(t))) == Ok(Fuzzy(String(t)))
    ensures Holds(MakeFuzzy(Text(t)).value, e) <==>
      exists name :: name in e && (Contains(LowerAll(name), LowerAll(t)) || exists val :: val in e[name] && Contains(LowerAll(val), LowerAll(t)))
    ensures MakeFuzzy(Compiled(p, ic)) == Ok(Fuzzy(RegExp(p, ic)))
    ensures Holds(MakeFuzzy(Compiled(p, ic)).value, e) <==>
      exists name :: name in e && (Search(p, name, ic) || exists val :: val in e[name] && Search(p, val, ic))
  {
  }

  lemma FuzzyStringExamples()
    ensures Holds(Fuzzy(String("a")), map["a" := {"xy"}])
    ensures Holds(Fuzzy(String("a")), map["xy" := {"a"}])
    ensures Holds(Fuzzy(String("a")), map["ba" := {"xy"}])
    ensures Holds(Fuzzy(String("a")), map["xy" := {"ba"}])
    ensures Holds(Fuzzy(String("a")), map["A" := {"xy"}])
    ensures Holds(Fuzzy(String("a")), map["xy" := {"A"}])
  {
    ContainsAt("ba", "a", 1);
    assert LowerAll("a") == "a" && LowerAll("A") == "a" && LowerAll("ba") == "ba";
    assert AtomFuzzy(String("a"), "ba");
    assert AtomFuzzy(String("a"), "a");
    assert AtomFuzzy(String("a"), "A");
    assert "ba" in map["xy" := {"ba"}]["xy"];
    assert "a" in map["xy" := {"a"}]["xy"];
    assert "A" in map["xy" := {"A"}]["xy"];
  }

  lemma {:induction false} AbsentChar(s: string, c: char)
    requires forall i :: 0 <= i < |s| ==> s[i] != c
    ensures !Contains(s, [c])
  {
    if s != [] {
      assert s[0] != c;
      AbsentChar(s[1..], c);
    }
  }

  /** A key or value that does not contain "a", in any case, does not satisfy `Fuzzy(String("a"))`. */
  lemma FuzzyStringMiss()
    ensures !Holds(Fuzzy(String("a")), map["xy" := {"xy"}])
  {
    assert LowerAll("xy") == "xy" && LowerAll("a") == "a";
    AbsentChar("xy", 'a');
  }

  /** Fuzzy RegExp matching is an unanchored search over keys and values. */
  lemma FuzzyRegExpSearches()
    ensures Holds(Fuzzy(RegExp("a", false)), map["a" := {"xy"}])
    ensures Holds(Fuzzy(RegExp("a", false)), map["xy" := {"a"}])
    ensures Holds(Fuzzy(RegExp("a", false)), map["ba" := {"xy"}])
    ensures Holds(Fuzzy(RegExp("a", false)), map["xy" := {"ba"}])
  {
    ContainsAt("ba", "a", 1);
    assert AtomFuzzy(RegExp("a", false), "ba");
    assert AtomFuzzy(RegExp("a", false), "a");
    assert "ba" in map["xy" := {"ba"}]["xy"];
    assert "a" in map["xy" := {"a"}]["xy"];
  }

  /** Without the `i` flag, fuzzy RegExp matching is case-sensitive, and it fails where the pattern occurs nowhere. */
  lemma FuzzyRegExpIsCaseSensitive()
    ensures !Holds(Fuzzy(RegExp("a", false)), map["xy" := {"xy"}])
    ensures !Holds(Fuzzy(RegExp("a", false)), map["A" := {"xy"}])
    ensures !Holds(Fuzzy(RegExp("a", false)), map["xy" := {"A"}])
  {
    AbsentChar("xy", 'a');
    AbsentChar("A", 'a');
  }
}
