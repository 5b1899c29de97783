/**
 * Bot parameters (abusehelper/core/bot.py): declaration order, value parsing,
 * the order in which parameters are grouped, and how the command line, the INI
 * file and the class defaults are merged into the values a bot is built with.
 */
module BotParams {
  import opened Wrappers
  import opened Text

  /** A parameter value: text from the command line or an INI file, a flag, or Python's None. */
  datatype Value = Str(s: string) | Flag(b: bool) | NoneValue

  /** A parameter's default: a value, or the `NO_VALUE` sentinel. */
  datatype Default = NoValue | Given(value: Value)

  /** `Param` takes its text as it is; `BoolParam` takes no argument and reads a boolean. */
  datatype Kind = PlainKind | BoolKind

  datatype ParamError = NotABoolean(text: string)

  /** A parameter as the class lists it: its attribute name and what its `Param` holds. */
  datatype Decl = Decl(name: string, order: int, default: Default, kind: Kind)

  /** Python truth of a default (`not self.default` in `BoolParam.parse`); the sentinel is an object, so true. */
  predicate Truthy(d: Default)
  {
    match d
    case NoValue => true
    case Given(v) =>
      match v
      case Str(s) => s != []
      case Flag(b) => b
      case NoneValue => false
  }

  // ---------------------------------------------------------------------
  // Declaration order

  /** The class-wide counter `Param.param_order`. */
  class OrderCounter {
    var next: int

    constructor(start: int)
      ensures next == start
    {
      next := start;
    }
  }

  class Param {
    const kind: Kind
    var help: Option<string>
    var short: Option<string>
    var default: Default
    var order: int

    /**
     * `Param.__init__` (and `BoolParam.__init__`, which defaults to False when no
     * default is passed): the new parameter takes the counter's value as its order
     * and the counter moves on by one.
     */
    constructor(counter: OrderCounter, kind: Kind, help: Option<string>, short: Option<string>, default: Option<Default>)
      modifies counter
      ensures this.kind == kind && this.help == help && this.short == short
      ensures this.default == DefaultFor(kind, default)
      ensures order == old(counter.next) && counter.next == old(counter.next) + 1
    {
      this.kind := kind;
      this.help := help;
      this.short := short;
      this.default := DefaultFor(kind, default);
      order := counter.next;
      counter.next := counter.next + 1;
    }

    /** `has_default`. */
    predicate HasDefault()
      reads this
    {
      default != NoValue
    }

    /** `parse` of the parameter's class. */
    function Parse(value: Option<string>): (r: Result<Value, ParamError>)
      reads this
      ensures kind == PlainKind ==> r == Ok(if value.Some? then Str(value.value) else NoneValue)
      ensures kind == BoolKind && value.None? ==> r == Ok(Flag(!Truthy(default)))
      ensures kind == BoolKind && value.Some? ==> (r == Ok(Flag(true)) <==> LowerAll(value.value) in TrueWords)
      ensures kind == BoolKind && value.Some? ==> (r == Ok(Flag(false)) <==> LowerAll(value.value) in FalseWords)
      ensures kind == BoolKind && value.Some? ==> (r.Err? <==> LowerAll(value.value) !in TrueWords + FalseWords)
    {
      ParseAs(kind, default, value)
    }

    /** What `grouped_params` and the command line read of a parameter declared as `name`. */
    function Declared(name: string): (d: Decl)
      reads this
      ensures d.name == name && d.order == order && d.default == default && d.kind == kind
    {
      Decl(name, order, default, kind)
    }
  }

  /** The default a new parameter gets: `NO_VALUE`, or False for `BoolParam`, unless one is passed. */
  function DefaultFor(kind: Kind, given: Option<Default>): (d: Default)
    ensures given.Some? ==> d == given.value
    ensures given.None? && kind == PlainKind ==> d == NoValue
    ensures given.None? && kind == BoolKind ==> d == Given(Flag(false))
  {
    match given
    case Some(d) => d
    case None => if kind == BoolKind then Given(Flag(false)) else NoValue
  }

  /**
   * Declares `count` parameters one after the other, as a class body does; their
   * orders are consecutive and strictly increase in declaration order.
   */
  method DeclareAll(counter: OrderCounter, kinds: seq<Kind>) returns (ps: seq<Param>)
    modifies counter
    ensures |ps| == |kinds|
    ensures forall i :: 0 <= i < |ps| ==> fresh(ps[i]) && ps[i].kind == kinds[i]
    ensures forall i :: 0 <= i < |ps| ==> ps[i].order == old(counter.next) + i
    ensures forall i, j :: 0 <= i < j < |ps| ==> ps[i].order < ps[j].order
    ensures counter.next == old(counter.next) + |kinds|
  {
    ps := [];
    var i := 0;
    while i < |kinds|
      invariant 0 <= i <= |kinds| && |ps| == i
      invariant counter.next == old(counter.next) + i
      invariant forall j :: 0 <= j < i ==> fresh(ps[j]) && ps[j].kind == kinds[j]
      invariant forall j :: 0 <= j < i ==> ps[j].order == old(counter.next) + j
    {
      var p := new Param(counter, kinds[i], None, None, None);
      ps := ps + [p];
      i := i + 1;
    }
  }

  // ---------------------------------------------------------------------
  // Parsing values

  const TrueWords: set<string> := {"on", "yes", "1", "true"}
  const FalseWords: set<string> := {"off", "no", "0", "false"}

  /** `BoolParam.parse`: no value flips the default; otherwise the words above, in any case. */
  function ParseBool(default: Default, value: Option<string>): (r: Result<Value, ParamError>)
    ensures value.None? ==> r == Ok(Flag(!Truthy(default)))
    ensures value.Some? ==> (r == Ok(Flag(true)) <==> LowerAll(value.value) in TrueWords)
    ensures value.Some? ==> (r == Ok(Flag(false)) <==> LowerAll(value.value) in FalseWords)
    ensures value.Some? ==> (r.Err? <==> LowerAll(value.value) !in TrueWords + FalseWords)
  {
    match value
    case None => Ok(Flag(!Truthy(default)))
    case Some(v) =>
      if LowerAll(v) in TrueWords then Ok(Flag(true))
      else if LowerAll(v) in FalseWords then Ok(Flag(false))
      else Err(NotABoolean(v))
  }

  /** `parse`: `Param.parse` answers its argument, `BoolParam.parse` reads a boolean. */
  function ParseAs(kind: Kind, default: Default, value: Option<string>): Result<Value, ParamError>
  {
    match kind
    case PlainKind => Ok(if value.Some? then Str(value.value) else NoneValue)
    case BoolKind => ParseBool(default, value)
  }

  lemma {:induction false} LowerAllIdempotent(s: string)
    ensures LowerAll(LowerAll(s)) == LowerAll(s)
  {
    var t := LowerAll(s);
    assert forall i :: 0 <= i < |s| ==> Lower(t[i]) == t[i];
  }

  /** Boolean words are read in any case: a value reads as its lower-cased spelling does. */
  lemma BoolIgnoresCase(default: Default, v: string)
    ensures ParseBool(default, Some(v)).Ok? ==> ParseBool(default, Some(v)) == ParseBool(default, Some(LowerAll(v)))
    ensures ParseBool(default, Some(v)).Ok? <==> ParseBool(default, Some(LowerAll(v))).Ok?
  {
    LowerAllIdempotent(v);
  }

  /** A bare boolean option turns a False default on, and a True default off. */
  lemma BareFlagFlips(b: bool)
    ensures ParseBool(Given(Flag(b)), None) == Ok(Flag(!b))
    ensures ParseBool(DefaultFor(BoolKind, None), None) == Ok(Flag(true))
  {
  }

  // ---------------------------------------------------------------------
  // Option names

  /** `optparse_name`: every `_` becomes `-`. */
  function OptparseName(name: string): (r: string)
    ensures |r| == |name|
    ensures forall i :: 0 <= i < |name| ==> r[i] == (if name[i] == '_' then '-' else name[i])
  {
    if name == [] then [] else [if name[0] == '_' then '-' else name[0]] + OptparseName(name[1..])
  }

  /** An option name has no `_` left, and a name without `_` is its own option name. */
  lemma OptparseNameCleans(name: string)
    ensures '_' !in OptparseName(name)
    ensures '_' !in name ==> OptparseName(name) == name
    ensures OptparseName(OptparseName(name)) == OptparseName(name)
  {
    var r := OptparseName(name);
    assert forall i :: 0 <= i < |r| ==> r[i] != '_';
  }

  // ---------------------------------------------------------------------
  // Grouping (`grouped_params`)

  /** `name.split("_")`: the pieces between underscores; there is always at least one. */
  function Bites(name: string): (r: seq<string>)
    ensures |r| >= 1
    ensures forall i :: 0 <= i < |r| ==> '_' !in r[i]
  {
    if name == [] then [[]]
    else
      var t := Bites(name[1..]);
      if name[0] == '_' then [[]] + t else [[name[0]] + t[0]] + t[1..]
  }

  /** `"_".join(pieces)`. */
  function JoinBites(pieces: seq<string>): string
  {
    if pieces == [] then []
    else if |pieces| == 1 then pieces[0]
    else pieces[0] + "_" + JoinBites(pieces[1..])
  }

  /** Splitting at underscores and joining with them gives the name back. */
  lemma {:induction false} BitesJoin(name: string)
    ensures JoinBites(Bites(name)) == name
  {
    if name != [] {
      var t := Bites(name[1..]);
      BitesJoin(name[1..]);
      if name[0] == '_' {
        assert ([[]] + t)[1..] == t;
        assert name == "_" + name[1..];
      } else if |t| == 1 {
        assert name == [name[0]] + name[1..];
      } else {
        var u := [[name[0]] + t[0]] + t[1..];
        assert u[1..] == t[1..];
        assert t[1..] == t[1..];
        assert JoinBites(t) == t[0] + "_" + JoinBites(t[1..]);
        assert name == [name[0]] + name[1..];
      }
    }
  }

  /** Different names split differently. */
  lemma BitesInjective(a: string, b: string)
    requires Bites(a) == Bites(b)
    ensures a == b
  {
    BitesJoin(a);
    BitesJoin(b);
  }

  /** The keys a name is filed under: each leading run of its pieces, `tuple(bites[:i+1])`. */
  function Keys(name: string): (ks: seq<seq<string>>)
    ensures |ks| == |Bites(name)|
    ensures forall i :: 0 <= i < |ks| ==> ks[i] == Bites(name)[..i + 1] && KeyOf(ks[i], name)
  {
    var bites := Bites(name);
    seq(|bites|, i requires 0 <= i < |bites| => bites[..i + 1])
  }

  /** `k` is one of the keys of `name`. */
  predicate KeyOf(k: seq<string>, name: string)
  {
    1 <= |k| <= |Bites(name)| && k == Bites(name)[..|k|]
  }

  function Min(a: int, b: int): int
  {
    if a <= b then a else b
  }

  /** One step of the inner loop: `orders[key] = min(orders.get(key, order), order)`. */
  function AddOne(orders: map<seq<string>, int>, key: seq<string>, order: int): map<seq<string>, int>
  {
    orders[key := Min(if key in orders then orders[key] else order, order)]
  }

  /** The inner loop over the keys of one parameter. */
  function AddKeys(orders: map<seq<string>, int>, keys: seq<seq<string>>, order: int): map<seq<string>, int>
    decreases |keys|
  {
    if keys == [] then orders
    else AddOne(AddKeys(orders, keys[..|keys| - 1], order), keys[|keys| - 1], order)
  }

  /** `orders` after the outer loop has seen `ps`. */
  function OrdersOf(ps: seq<Decl>): map<seq<string>, int>
    decreases |ps|
  {
    if ps == [] then map[]
    else
      var last := ps[|ps| - 1];
      AddKeys(OrdersOf(ps[..|ps| - 1]), Keys(last.name), last.order)
  }

  lemma {:induction false} AddKeysValue(orders: map<seq<string>, int>, keys: seq<seq<string>>, order: int, k: seq<string>)
    ensures k in AddKeys(orders, keys, order) <==> k in orders || k in keys
    ensures k in keys && k in orders ==> AddKeys(orders, keys, order)[k] == Min(orders[k], order)
    ensures k in keys && k !in orders ==> AddKeys(orders, keys, order)[k] == order
    ensures k !in keys && k in orders ==> AddKeys(orders, keys, order)[k] == orders[k]
    decreases |keys|
  {
    if keys != [] {
      var front := keys[..|keys| - 1];
      AddKeysValue(orders, front, order, k);
      assert k in keys <==> k in front || k == keys[|keys| - 1] by {
        assert keys == front + [keys[|keys| - 1]];
      }
    }
  }

  /**
   * After the loops, `orders` holds exactly the keys of the names seen, each
   * mapped to the least order among the parameters filed under it.
   */
  lemma {:induction false} OrdersAreMinima(ps: seq<Decl>, k: seq<string>)
    ensures k in OrdersOf(ps) <==> exists j :: 0 <= j < |ps| && KeyOf(k, ps[j].name)
    ensures k in OrdersOf(ps) ==> exists j :: 0 <= j < |ps| && KeyOf(k, ps[j].name) && OrdersOf(ps)[k] == ps[j].order
    ensures forall j :: 0 <= j < |ps| && KeyOf(k, ps[j].name) ==> k in OrdersOf(ps) && OrdersOf(ps)[k] <= ps[j].order
    decreases |ps|
  {
    if ps != [] {
      var front := ps[..|ps| - 1];
      var last := ps[|ps| - 1];
      OrdersAreMinima(front, k);
      AddKeysValue(OrdersOf(front), Keys(last.name), last.order, k);
      KeysAreKeyOf(k, last.name);
      assert forall j :: 0 <= j < |ps| - 1 ==> ps[j] == front[j];
      if k in OrdersOf(front) {
        var j :| 0 <= j < |front| && KeyOf(k, front[j].name) && OrdersOf(front)[k] == front[j].order;
        assert ps[j] == front[j];
      }
    }
  }

  lemma KeysAreKeyOf(k: seq<string>, name: string)
    ensures k in Keys(name) <==> KeyOf(k, name)
  {
    var ks := Keys(name);
    if KeyOf(k, name) {
      assert ks[|k| - 1] == k;
    }
  }

  /** Every key of `name` has an order. */
  ghost predicate Covered(orders: map<seq<string>, int>, name: string)
  {
    forall k :: KeyOf(k, name) ==> k in orders
  }

  /** Every key of every parameter has an order. */
  ghost predicate Covers(orders: map<seq<string>, int>, ps: seq<Decl>)
  {
    forall x :: x in ps ==> Covered(orders, x.name)
  }

  lemma OrdersCover(ps: seq<Decl>)
    ensures Covers(OrdersOf(ps), ps)
  {
    forall x, k | x in ps && KeyOf(k, x.name)
      ensures k in OrdersOf(ps)
    {
      var j :| 0 <= j < |ps| && ps[j] == x;
      OrdersAreMinima(ps, k);
    }
    assert forall x :: x in ps ==> Covered(OrdersOf(ps), x.name);
  }

  /** `tuple(map(orders.get, keys[name]))`: the sort key of a parameter. */
  function SortKey(orders: map<seq<string>, int>, name: string): (key: seq<int>)
    requires Covered(orders, name)
    ensures |key| == |Bites(name)|
    ensures forall i :: 0 <= i < |key| ==> key[i] == orders[Keys(name)[i]]
  {
    var ks := Keys(name);
    seq(|ks|, i requires 0 <= i < |ks| => orders[ks[i]])
  }

  /** Python's ordering of tuples of integers. */
  predicate LexLeq(a: seq<int>, b: seq<int>)
    decreases |a|
  {
    a == [] || (b != [] && (a[0] < b[0] || (a[0] == b[0] && LexLeq(a[1..], b[1..]))))
  }

  lemma {:induction false} LexTotal(a: seq<int>, b: seq<int>)
    ensures LexLeq(a, b) || LexLeq(b, a)
    decreases |a|
  {
    if a != [] && b != [] && a[0] == b[0] {
      LexTotal(a[1..], b[1..]);
    }
  }

  lemma {:induction false} LexTransitive(a: seq<int>, b: seq<int>, c: seq<int>)
    requires LexLeq(a, b) && LexLeq(b, c)
    ensures LexLeq(a, c)
    decreases |a|
  {
    if a != [] && a[0] == b[0] && b[0] == c[0] {
      LexTransitive(a[1..], b[1..], c[1..]);
    }
  }

  /** A tuple ordered between two that agree on their first `n` entries agrees with them there too. */
  lemma {:induction false} LexBetween(a: seq<int>, b: seq<int>, c: seq<int>, n: nat)
    requires LexLeq(a, b) && LexLeq(b, c)
    requires n <= |a| && n <= |c| && a[..n] == c[..n]
    ensures n <= |b| && b[..n] == a[..n]
    decreases n
  {
    if n > 0 {
      assert a[0] == a[..n][0] == c[..n][0] == c[0];
      assert a[1..][..n - 1] == a[..n][1..] == c[..n][1..] == c[1..][..n - 1];
      LexBetween(a[1..], b[1..], c[1..], n - 1);
      assert b[..n] == [b[0]] + b[1..][..n - 1];
      assert a[..n] == [a[0]] + a[1..][..n - 1];
    }
  }

  /** Puts `x` before the first parameter whose key is not below its own. */
  function Insert(orders: map<seq<string>, int>, x: Decl, s: seq<Decl>): (r: seq<Decl>)
    requires Covered(orders, x.name) && Covers(orders, s)
    ensures multiset(r) == multiset(s) + multiset{x}
  {
    if s == [] then [x]
    else if LexLeq(SortKey(orders, x.name), SortKey(orders, s[0].name)) then [x] + s
    else
      assert s == [s[0]] + s[1..];
      [s[0]] + Insert(orders, x, s[1..])
  }

  /** `sorted(params, key=...)`, as an insertion sort. */
  function SortByKey(orders: map<seq<string>, int>, ps: seq<Decl>): (r: seq<Decl>)
    requires Covers(orders, ps)
    ensures multiset(r) == multiset(ps)
  {
    if ps == [] then []
    else
      CoversTail(orders, ps);
      var rest := SortByKey(orders, ps[1..]);
      CoversSame(orders, rest, ps[1..]);
      MultisetOfFirst(ps);
      Insert(orders, ps[0], rest)
  }

  lemma MultisetOfFirst(ps: seq<Decl>)
    requires ps != []
    ensures multiset(ps) == multiset(ps[1..]) + multiset{ps[0]}
  {
    assert ps == [ps[0]] + ps[1..];
  }

  lemma CoversTail(orders: map<seq<string>, int>, ps: seq<Decl>)
    requires ps != [] && Covers(orders, ps)
    ensures Covered(orders, ps[0].name) && Covers(orders, ps[1..])
  {
    assert forall x :: x in ps[1..] ==> x in ps;
  }

  lemma CoversSame(orders: map<seq<string>, int>, a: seq<Decl>, b: seq<Decl>)
    requires multiset(a) == multiset(b) && Covers(orders, b)
    ensures Covers(orders, a)
  {
    forall x | x in a
      ensures Covered(orders, x.name)
    {
      assert x in multiset(a);
      assert x in b;
    }
  }

  /** The sort keys never go down along `r`. */
  ghost predicate SortedBy(orders: map<seq<string>, int>, r: seq<Decl>)
    requires Covers(orders, r)
  {
    forall i, j :: 0 <= i < j < |r| ==> LexLeq(SortKey(orders, r[i].name), SortKey(orders, r[j].name))
  }

  lemma SortedTail(orders: map<seq<string>, int>, s: seq<Decl>)
    requires s != [] && Covers(orders, s) && SortedBy(orders, s)
    ensures Covers(orders, s[1..]) && SortedBy(orders, s[1..])
    ensures forall y :: y in s[1..] ==> LexLeq(SortKey(orders, s[0].name), SortKey(orders, y.name))
  {
    CoversTail(orders, s);
    forall i, j | 0 <= i < j < |s[1..]|
      ensures LexLeq(SortKey(orders, s[1..][i].name), SortKey(orders, s[1..][j].name))
    {
      assert s[1..][i] == s[i + 1] && s[1..][j] == s[j + 1];
    }
    forall y | y in s[1..]
      ensures LexLeq(SortKey(orders, s[0].name), SortKey(orders, y.name))
    {
      var m :| 0 <= m < |s[1..]| && s[1..][m] == y;
      assert s[m + 1] == y;
    }
  }

  /** `x` goes first: its key is below every later one. */
  lemma InsertFirst(orders: map<seq<string>, int>, x: Decl, s: seq<Decl>)
    requires Covered(orders, x.name) && Covers(orders, s) && SortedBy(orders, s)
    requires s != [] && LexLeq(SortKey(orders, x.name), SortKey(orders, s[0].name))
    ensures Covers(orders, [x] + s) && SortedBy(orders, [x] + s)
  {
    var r := [x] + s;
    var kx := SortKey(orders, x.name);
    forall j | 1 < j < |r|
      ensures LexLeq(kx, SortKey(orders, r[j].name))
    {
      assert r[j] == s[j - 1];
      LexTransitive(kx, SortKey(orders, s[0].name), SortKey(orders, r[j].name));
    }
    assert forall j :: 0 < j < |r| ==> r[j] == s[j - 1];
  }

  /** `s[0]` stays first: its key is below `x`'s and below the rest of `s`. */
  lemma InsertAfter(orders: map<seq<string>, int>, y: Decl, t: seq<Decl>)
    requires Covered(orders, y.name) && Covers(orders, t) && SortedBy(orders, t)
    requires forall z :: z in t ==> LexLeq(SortKey(orders, y.name), SortKey(orders, z.name))
    ensures Covers(orders, [y] + t) && SortedBy(orders, [y] + t)
  {
    var r := [y] + t;
    assert forall j :: 0 < j < |r| ==> r[j] == t[j - 1] && t[j - 1] in t;
  }

  lemma {:induction false} InsertSorted(orders: map<seq<string>, int>, x: Decl, s: seq<Decl>)
    requires Covered(orders, x.name) && Covers(orders, s) && SortedBy(orders, s)
    ensures Covers(orders, Insert(orders, x, s)) && SortedBy(orders, Insert(orders, x, s))
  {
    if s == [] {
    } else if LexLeq(SortKey(orders, x.name), SortKey(orders, s[0].name)) {
      InsertFirst(orders, x, s);
    } else {
      LexTotal(SortKey(orders, x.name), SortKey(orders, s[0].name));
      SortedTail(orders, s);
      InsertSorted(orders, x, s[1..]);
      var t := Insert(orders, x, s[1..]);
      forall z | z in t
        ensures LexLeq(SortKey(orders, s[0].name), SortKey(orders, z.name))
      {
        assert z in multiset(t);
      }
      CoversTail(orders, s);
      InsertAfter(orders, s[0], t);
    }
  }

  lemma {:induction false} SortSorted(orders: map<seq<string>, int>, ps: seq<Decl>)
    requires Covers(orders, ps)
    ensures Covers(orders, SortByKey(orders, ps)) && SortedBy(orders, SortByKey(orders, ps))
  {
    var r := SortByKey(orders, ps);
    assert forall y :: y in r ==> y in multiset(r);
    if ps != [] {
      SortSorted(orders, ps[1..]);
      InsertSorted(orders, ps[0], SortByKey(orders, ps[1..]));
    }
  }

  /** `grouped_params`: the parameters sorted by the tuple of the least orders filed under each of their keys. */
  function Grouped(ps: seq<Decl>): (r: seq<Decl>)
    ensures multiset(r) == multiset(ps)
  {
    OrdersCover(ps);
    SortByKey(OrdersOf(ps), ps)
  }

  /** One more key is one more step of the inner loop. */
  lemma AddKeysSnoc(orders: map<seq<string>, int>, keys: seq<seq<string>>, key: seq<string>, order: int)
    ensures AddKeys(orders, keys + [key], order) == AddOne(AddKeys(orders, keys, order), key, order)
  {
    assert (keys + [key])[..|keys|] == keys;
  }

  /** The inner loop of `grouped_params`: each key of `name` takes the least order seen for it. */
  method AddBites(orders: map<seq<string>, int>, name: string, order: int) returns (updated: map<seq<string>, int>, mine: seq<seq<string>>)
    ensures mine == Keys(name) && updated == AddKeys(orders, mine, order)
  {
    var bites := Bites(name);
    ghost var keys := Keys(name);
    updated, mine := orders, [];
    var i := 0;
    while i < |bites|
      invariant 0 <= i <= |bites| == |keys|
      invariant mine == keys[..i]
      invariant updated == AddKeys(orders, mine, order)
    {
      var key := bites[..i + 1];
      AddKeysSnoc(orders, mine, key, order);
      updated := updated[key := Min(if key in updated then updated[key] else order, order)];
      assert keys[..i + 1] == mine + [key];
      mine := mine + [key];
      i := i + 1;
    }
    assert keys[..i] == keys;
  }

  /** The loops of `grouped_params`, then the sort. */
  method GroupedParams(ps: seq<Decl>) returns (r: seq<Decl>)
    ensures r == Grouped(ps)
  {
    var keys: map<string, seq<seq<string>>> := map[];
    var orders: map<seq<string>, int> := map[];
    var n := 0;
    while n < |ps|
      invariant 0 <= n <= |ps|
      invariant orders == OrdersOf(ps[..n])
      invariant forall name :: name in keys ==> keys[name] == Keys(name)
    {
      var name, order := ps[n].name, ps[n].order;
      var mine;
      orders, mine := AddBites(orders, name, order);
      keys := keys[name := mine];
      assert ps[..n + 1][..n] == ps[..n];
      n := n + 1;
    }
    assert ps[..n] == ps;
    OrdersCover(ps);
    r := SortByKey(orders, ps);
  }

  /** `grouped_params` answers its parameters ordered by their sort keys. */
  lemma GroupedSorted(ps: seq<Decl>)
    ensures Covers(OrdersOf(ps), Grouped(ps))
    ensures forall i, j :: 0 <= i < j < |Grouped(ps)| ==>
      LexLeq(SortKey(OrdersOf(ps), Grouped(ps)[i].name), SortKey(OrdersOf(ps), Grouped(ps)[j].name))
  {
    OrdersCover(ps);
    SortSorted(OrdersOf(ps), ps);
  }

  /** Sort keys of two names that share the key `k` agree up to `k`. */
  lemma SharedKeyPrefix(orders: map<seq<string>, int>, a: string, b: string, k: seq<string>)
    requires Covered(orders, a) && Covered(orders, b) && KeyOf(k, a) && KeyOf(k, b)
    ensures |k| <= |SortKey(orders, a)| && |k| <= |SortKey(orders, b)|
    ensures SortKey(orders, a)[..|k|] == SortKey(orders, b)[..|k|]
  {
    var ka, kb := SortKey(orders, a), SortKey(orders, b);
    forall t | 0 <= t < |k|
      ensures ka[t] == kb[t]
    {
      assert Keys(a)[t] == Bites(a)[..t + 1] == k[..t + 1] == Bites(b)[..t + 1] == Keys(b)[t];
    }
  }

  /** With distinct orders, the least order filed under a key names that key. */
  lemma OrderNamesKey(ps: seq<Decl>, k: seq<string>, k': seq<string>)
    requires forall a, b :: 0 <= a < b < |ps| ==> ps[a].order != ps[b].order
    requires k in OrdersOf(ps) && k' in OrdersOf(ps) && |k| == |k'| && OrdersOf(ps)[k] == OrdersOf(ps)[k']
    ensures k == k'
  {
    OrdersAreMinima(ps, k);
    OrdersAreMinima(ps, k');
    var x :| 0 <= x < |ps| && KeyOf(k, ps[x].name) && OrdersOf(ps)[k] == ps[x].order;
    var y :| 0 <= y < |ps| && KeyOf(k', ps[y].name) && OrdersOf(ps)[k'] == ps[y].order;
    assert x == y;
  }

  /**
   * With distinct orders, the parameters filed under one key come out next to
   * each other: anything between two of them is filed under that key too.
   */
  lemma GroupsAdjacent(ps: seq<Decl>, k: seq<string>, i: nat, m: nat, j: nat)
    requires forall a, b :: 0 <= a < b < |ps| ==> ps[a].order != ps[b].order
    requires i < m < j < |Grouped(ps)|
    requires KeyOf(k, Grouped(ps)[i].name) && KeyOf(k, Grouped(ps)[j].name)
    ensures KeyOf(k, Grouped(ps)[m].name)
  {
    var orders, r := OrdersOf(ps), Grouped(ps);
    GroupedSorted(ps);
    assert r[i] in r && r[m] in r && r[j] in r;
    var a, b, c := SortKey(orders, r[i].name), SortKey(orders, r[m].name), SortKey(orders, r[j].name);
    SharedKeyPrefix(orders, r[i].name, r[j].name, k);
    LexBetween(a, b, c, |k|);
    var n := |k| - 1;
    var k' := Keys(r[m].name)[n];
    assert a[n] == a[..|k|][n] == b[..|k|][n] == b[n];
    assert a[n] == orders[Keys(r[i].name)[n]];
    assert Keys(r[i].name)[n] == Bites(r[i].name)[..n + 1] == k;
    OrderNamesKey(ps, k, k');
  }

  // ---------------------------------------------------------------------
  // Positional arguments (`params_from_command_line`)

  /** No two parameters share a name, as no two attributes of a class do. */
  predicate DistinctNames(ps: seq<Decl>)
  {
    forall i, j :: 0 <= i < j < |ps| ==> ps[i].name != ps[j].name
  }

  datatype CliError = BadValue(name: string, error: ParamError) | NoValueFor(name: string) | NoBotNameDefault

  /** The parameters without a default, in order: they are read from positional arguments. */
  function Positional(ps: seq<Decl>): (r: seq<Decl>)
    ensures forall x :: x in r <==> x in ps && x.default == NoValue
    decreases |ps|
  {
    if ps == [] then []
    else
      var last := ps[|ps| - 1];
      assert ps == ps[..|ps| - 1] + [last];
      Positional(ps[..|ps| - 1]) + (if last.default == NoValue then [last] else [])
  }

  /**
   * `zip(positional, args)`: each positional parameter not already set by an
   * option takes the parsed argument at its place; the first value that does not
   * parse is an error.
   */
  function Fill(pos: seq<Decl>, args: seq<string>, parsed: map<string, Value>): Result<map<string, Value>, CliError>
    decreases |pos|
  {
    if pos == [] || args == [] then Ok(parsed)
    else if pos[0].name in parsed then Fill(pos[1..], args[1..], parsed)
    else
      match ParseAs(pos[0].kind, pos[0].default, Some(args[0]))
      case Ok(v) => Fill(pos[1..], args[1..], parsed[pos[0].name := v])
      case Err(e) => Err(BadValue(pos[0].name, e))
  }

  lemma PositionalSnoc(ps: seq<Decl>, n: nat)
    requires n < |ps|
    ensures Positional(ps[..n + 1]) == Positional(ps[..n]) + (if ps[n].default == NoValue then [ps[n]] else [])
  {
    assert ps[..n + 1][..n] == ps[..n];
  }

  /** `Fill` from the `i`-th positional parameter and argument on: one step. */
  lemma FillSkips(pos: seq<Decl>, args: seq<string>, i: nat, parsed: map<string, Value>)
    requires i < |pos| && i < |args| && pos[i].name in parsed
    ensures Fill(pos[i..], args[i..], parsed) == Fill(pos[i + 1..], args[i + 1..], parsed)
  {
    FillTails(pos, args, i);
  }

  lemma FillParses(pos: seq<Decl>, args: seq<string>, i: nat, parsed: map<string, Value>)
    requires i < |pos| && i < |args| && pos[i].name !in parsed && ParseAs(pos[i].kind, pos[i].default, Some(args[i])).Ok?
    ensures Fill(pos[i..], args[i..], parsed)
            == Fill(pos[i + 1..], args[i + 1..], parsed[pos[i].name := ParseAs(pos[i].kind, pos[i].default, Some(args[i])).value])
  {
    FillTails(pos, args, i);
  }

  lemma FillFails(pos: seq<Decl>, args: seq<string>, i: nat, parsed: map<string, Value>)
    requires i < |pos| && i < |args| && pos[i].name !in parsed && ParseAs(pos[i].kind, pos[i].default, Some(args[i])).Err?
    ensures Fill(pos[i..], args[i..], parsed) == Err(BadValue(pos[i].name, ParseAs(pos[i].kind, pos[i].default, Some(args[i])).error))
  {
    FillTails(pos, args, i);
  }

  lemma FillTails(pos: seq<Decl>, args: seq<string>, i: nat)
    requires i < |pos| && i < |args|
    ensures pos[i..][0] == pos[i] && args[i..][0] == args[i]
    ensures pos[i..][1..] == pos[i + 1..] && args[i..][1..] == args[i + 1..]
  {
  }

  lemma FillDone(pos: seq<Decl>, args: seq<string>, i: nat, parsed: map<string, Value>)
    requires i <= |pos| && i <= |args| && (i == |pos| || i == |args|)
    ensures Fill(pos[i..], args[i..], parsed) == Ok(parsed)
  {
  }

  /** The value of positional parameter `i`, if an argument reaches it and no option set it. */
  predicate FilledBy(pos: seq<Decl>, args: seq<string>, parsed: map<string, Value>, i: int)
  {
    0 <= i < |pos| && i < |args| && pos[i].name !in parsed
  }

  lemma {:induction false} FillOutcome(pos: seq<Decl>, args: seq<string>, parsed: map<string, Value>)
    requires DistinctNames(pos)
    ensures Fill(pos, args, parsed).Err? <==>
      exists i :: FilledBy(pos, args, parsed, i) && ParseAs(pos[i].kind, pos[i].default, Some(args[i])).Err?
    ensures Fill(pos, args, parsed).Err? ==>
      exists i :: (FilledBy(pos, args, parsed, i) && ParseAs(pos[i].kind, pos[i].default, Some(args[i])).Err? &&
        Fill(pos, args, parsed) == Err(BadValue(pos[i].name, ParseAs(pos[i].kind, pos[i].default, Some(args[i])).error)))
    ensures Fill(pos, args, parsed).Ok? ==>
      var m := Fill(pos, args, parsed).value;
      (forall n :: n in m <==> n in parsed || exists i :: FilledBy(pos, args, parsed, i) && pos[i].name == n)
      && (forall n :: n in parsed ==> m[n] == parsed[n])
      && (forall i :: FilledBy(pos, args, parsed, i) ==> Ok(m[pos[i].name]) == ParseAs(pos[i].kind, pos[i].default, Some(args[i])))
    decreases |pos|
  {
    if pos != [] && args != [] {
      var p := pos[0];
      var next := if p.name in parsed then parsed
        else if ParseAs(p.kind, p.default, Some(args[0])).Ok? then parsed[p.name := ParseAs(p.kind, p.default, Some(args[0])).value]
        else parsed;
      assert DistinctNames(pos[1..]) by {
        forall i, j | 0 <= i < j < |pos[1..]| ensures pos[1..][i].name != pos[1..][j].name {
          assert pos[1..][i] == pos[i + 1] && pos[1..][j] == pos[j + 1];
        }
      }
      FillOutcome(pos[1..], args[1..], next);
      FillShift(pos, args, parsed, next);
    }
  }

  /** Positional parameter `i + 1` is filled exactly when parameter `i` of the tails is. */
  lemma FillShift(pos: seq<Decl>, args: seq<string>, parsed: map<string, Value>, next: map<string, Value>)
    requires DistinctNames(pos) && pos != [] && args != []
    requires next.Keys == parsed.Keys || next.Keys == parsed.Keys + {pos[0].name}
    requires pos[0].name in parsed ==> next == parsed
    ensures forall i: nat :: FilledBy(pos[1..], args[1..], next, i) <==> FilledBy(pos, args, parsed, i + 1)
    ensures forall i :: FilledBy(pos, args, parsed, i) ==> i == 0 || FilledBy(pos[1..], args[1..], next, i - 1)
  {
    forall i: nat
      ensures FilledBy(pos[1..], args[1..], next, i) <==> FilledBy(pos, args, parsed, i + 1)
    {
      if i < |pos[1..]| {
        var n := pos[i + 1].name;
        assert pos[1..][i] == pos[i + 1] && n != pos[0].name;
        assert n in next.Keys <==> n in parsed.Keys;
      }
    }
    forall i | FilledBy(pos, args, parsed, i) && i != 0
      ensures FilledBy(pos[1..], args[1..], next, i - 1)
    {
      var n := pos[i].name;
      assert pos[1..][i - 1] == pos[i] && n != pos[0].name;
      assert n in next.Keys <==> n in parsed.Keys;
    }
  }

  /** The parameters without a default, in declaration order: the positional arguments. */
  method CollectPositional(ps: seq<Decl>) returns (positional: seq<Decl>)
    ensures positional == Positional(ps)
  {
    positional := [];
    var n := 0;
    while n < |ps|
      invariant 0 <= n <= |ps| && positional == Positional(ps[..n])
    {
      PositionalSnoc(ps, n);
      if ps[n].default == NoValue {
        positional := positional + [ps[n]];
      }
      n := n + 1;
    }
    assert ps[..n] == ps;
  }

  /**
   * `params_from_command_line` once the options are read: `options` holds what
   * the option callbacks parsed, and the positional arguments fill the rest.
   */
  method ParamsFromCommandLine(ps: seq<Decl>, options: map<string, Value>, args: seq<string>)
    returns (r: Result<map<string, Value>, CliError>)
    ensures r == Fill(Positional(ps), args, options)
  {
    var positional := CollectPositional(ps);
    var parsed := options;
    ghost var spec := Fill(positional, args, options);
    var i := 0;
    while i < |positional| && i < |args|
      invariant 0 <= i <= |positional| && i <= |args|
      invariant spec == Fill(positional[i..], args[i..], parsed)
    {
      var p := positional[i];
      if p.name !in parsed {
        var v := ParseAs(p.kind, p.default, Some(args[i]));
        if v.Err? {
          FillFails(positional, args, i, parsed);
          return Err(BadValue(p.name, v.error));
        }
        FillParses(positional, args, i, parsed);
        parsed := parsed[p.name := v.value];
      } else {
        FillSkips(positional, args, i, parsed);
      }
      i := i + 1;
    }
    FillDone(positional, args, i, parsed);
    r := Ok(parsed);
  }

  // ---------------------------------------------------------------------
  // Defaults, the INI file and the command line (`from_command_line`)

  /** `param_defaults`: the default of each parameter that has one, by name. */
  function ParamDefaults(ps: seq<Decl>): map<string, Value>
    decreases |ps|
  {
    if ps == [] then map[]
    else
      var last := ps[|ps| - 1];
      var front := ParamDefaults(ps[..|ps| - 1]);
      if last.default.Given? then front[last.name := last.default.value] else front
  }

  lemma {:induction false} DefaultsOf(ps: seq<Decl>, i: int)
    requires DistinctNames(ps) && 0 <= i < |ps|
    ensures ps[i].name in ParamDefaults(ps) <==> ps[i].default.Given?
    ensures ps[i].default.Given? ==> ParamDefaults(ps)[ps[i].name] == ps[i].default.value
    decreases |ps|
  {
    var front := ps[..|ps| - 1];
    if i < |ps| - 1 {
      assert front[i] == ps[i] && ps[i].name != ps[|ps| - 1].name;
      assert DistinctNames(front);
      DefaultsOf(front, i);
    } else if front != [] {
      DefaultNotFiled(front, ps[i].name);
    }
  }

  /** A name no parameter has gets no default. */
  lemma {:induction false} DefaultNotFiled(ps: seq<Decl>, n: string)
    requires forall j :: 0 <= j < |ps| ==> ps[j].name != n
    ensures n !in ParamDefaults(ps)
    decreases |ps|
  {
    if ps != [] {
      DefaultNotFiled(ps[..|ps| - 1], n);
    }
  }

  /**
   * The INI section: `ini_section` from the command line, else the bot's name
   * from the command line or its default; the default is looked up in any case.
   */
  function Section(cli: map<string, Value>, defaults: map<string, Value>): (r: Result<Value, CliError>)
    ensures r.Err? <==> ("ini_section" !in cli || cli["ini_section"] == NoneValue) && "bot_name" !in defaults
    ensures r.Ok? && "ini_section" in cli && cli["ini_section"] != NoneValue ==> r.value == cli["ini_section"]
    ensures r.Ok? && ("ini_section" !in cli || cli["ini_section"] == NoneValue) ==>
      r.value == (if "bot_name" in cli then cli["bot_name"] else defaults["bot_name"])
  {
    if "ini_section" in cli && cli["ini_section"] != NoneValue then Ok(cli["ini_section"])
    else if "bot_name" !in defaults then Err(NoBotNameDefault)
    else Ok(if "bot_name" in cli then cli["bot_name"] else defaults["bot_name"])
  }

  /** The options of a section of the INI file (none when the file lacks the section). */
  function Options(config: map<Value, map<string, string>>, section: Value): map<string, string>
  {
    if section in config then config[section] else map[]
  }

  /** The INI file is read when the command line names one. */
  predicate ReadsIni(cli: map<string, Value>)
  {
    "ini_file" in cli && cli["ini_file"] != NoneValue
  }

  /** The INI options the parameters are read from, or none. */
  function IniOptions(ps: seq<Decl>, cli: map<string, Value>, config: map<Value, map<string, string>>): map<string, string>
  {
    var section := Section(cli, ParamDefaults(ps));
    if ReadsIni(cli) && section.Ok? then Options(config, section.value) else map[]
  }

  /** The INI file gives `p` a value. */
  predicate IniReads(p: Decl, opts: map<string, string>)
  {
    p.name in opts && ParseAs(p.kind, p.default, Some(opts[p.name])).Ok?
  }

  /** The INI value of `p` does not parse and the command line does not replace it. */
  predicate IniFails(p: Decl, cli: map<string, Value>, opts: map<string, string>)
  {
    p.name in opts && p.name !in cli && ParseAs(p.kind, p.default, Some(opts[p.name])).Err?
  }

  /** The loop over the parameters that reads the INI options into the defaults. */
  function Overlay(ps: seq<Decl>, cli: map<string, Value>, opts: map<string, string>, acc: map<string, Value>)
    : Result<map<string, Value>, CliError>
    decreases |ps|
  {
    if ps == [] then Ok(acc)
    else if ps[0].name !in opts then Overlay(ps[1..], cli, opts, acc)
    else
      match ParseAs(ps[0].kind, ps[0].default, Some(opts[ps[0].name]))
      case Ok(v) => Overlay(ps[1..], cli, opts, acc[ps[0].name := v])
      case Err(e) => if ps[0].name in cli then Overlay(ps[1..], cli, opts, acc) else Err(BadValue(ps[0].name, e))
  }

  /** The first parameter left without a value. */
  function FirstMissing(ps: seq<Decl>, values: map<string, Value>): (r: Option<string>)
    ensures r.None? <==> forall i :: 0 <= i < |ps| ==> ps[i].name in values
    ensures r.Some? ==> exists i :: 0 <= i < |ps| && ps[i].name == r.value && r.value !in values
  {
    if ps == [] then None
    else if ps[0].name !in values then Some(ps[0].name)
    else
      var r := FirstMissing(ps[1..], values);
      assert forall i :: 0 < i < |ps| ==> ps[i] == ps[1..][i - 1];
      r
  }

  /** `from_command_line` after the command line is parsed into `cli`; `config` is the INI file it names. */
  function Resolve(ps: seq<Decl>, cli: map<string, Value>, config: map<Value, map<string, string>>)
    : Result<map<string, Value>, CliError>
  {
    var defaults := ParamDefaults(ps);
    var start :=
      if !ReadsIni(cli) then Ok(defaults)
      else
        match Section(cli, defaults)
        case Err(e) => Err(e)
        case Ok(section) => Overlay(ps, cli, Options(config, section), defaults);
    match start
    case Err(e) => Err(e)
    case Ok(values) =>
      var all := values + cli;
      match FirstMissing(ps, all)
      case Some(n) => Err(NoValueFor(n))
      case None => Ok(all)
  }

  /** `Bot.__init__`: one attribute per parameter, from the keyword arguments. */
  function Attributes(ps: seq<Decl>, keys: map<string, Value>): map<string, Value>
    requires forall i :: 0 <= i < |ps| ==> ps[i].name in keys
    decreases |ps|
  {
    if ps == [] then map[]
    else Attributes(ps[..|ps| - 1], keys)[ps[|ps| - 1].name := keys[ps[|ps| - 1].name]]
  }

  class Bot {
    var values: map<string, Value>

    /** `Bot.__init__`: `setattr` for each parameter in turn. */
    constructor(ps: seq<Decl>, keys: map<string, Value>)
      requires forall i :: 0 <= i < |ps| ==> ps[i].name in keys
      ensures values == Attributes(ps, keys)
    {
      values := map[];
      new;
      var n := 0;
      while n < |ps|
        invariant 0 <= n <= |ps| && values == Attributes(ps[..n], keys)
      {
        assert ps[..n + 1][..n] == ps[..n];
        values := values[ps[n].name := keys[ps[n].name]];
        n := n + 1;
      }
      assert ps[..n] == ps;
    }
  }

  /** Every parameter becomes an attribute holding its keyword argument. */
  lemma {:induction false} AttributesHold(ps: seq<Decl>, keys: map<string, Value>)
    requires forall i :: 0 <= i < |ps| ==> ps[i].name in keys
    ensures forall n :: n in Attributes(ps, keys) <==> exists i :: 0 <= i < |ps| && ps[i].name == n
    ensures forall n :: n in Attributes(ps, keys) ==> Attributes(ps, keys)[n] == keys[n]
    decreases |ps|
  {
    if ps != [] {
      var front := ps[..|ps| - 1];
      AttributesHold(front, keys);
      assert forall i :: 0 <= i < |ps| - 1 ==> ps[i] == front[i];
    }
  }

  /** The loops of `from_command_line`, then `cls(**default)`. */
  method FromCommandLine(ps: seq<Decl>, cli: map<string, Value>, config: map<Value, map<string, string>>)
    returns (r: Result<Bot, CliError>)
    ensures r.Err? ==> Resolve(ps, cli, config) == Err(r.error)
    ensures r.Ok? ==> Resolve(ps, cli, config).Ok? && fresh(r.value)
    ensures r.Ok? ==> r.value.values == Attributes(ps, Resolve(ps, cli, config).value)
  {
    var defaults := ParamDefaults(ps);
    var values := defaults;
    if ReadsIni(cli) {
      var section: Value;
      if "ini_section" in cli && cli["ini_section"] != NoneValue {
        section := cli["ini_section"];
      } else {
        if "bot_name" !in defaults {
          return Err(NoBotNameDefault);
        }
        section := if "bot_name" in cli then cli["bot_name"] else defaults["bot_name"];
      }
      var opts := Options(config, section);
      var i := 0;
      while i < |ps|
        invariant 0 <= i <= |ps|
        invariant Overlay(ps, cli, opts, defaults) == Overlay(ps[i..], cli, opts, values)
      {
        var p := ps[i];
        assert ps[i..][1..] == ps[i + 1..];
        if p.name in opts {
          match ParseAs(p.kind, p.default, Some(opts[p.name]))
          case Ok(v) =>
            values := values[p.name := v];
          case Err(e) =>
            if p.name !in cli {
              return Err(BadValue(p.name, e));
            }
        }
        i := i + 1;
      }
    }
    values := values + cli;
    var i := 0;
    while i < |ps|
      invariant 0 <= i <= |ps| && FirstMissing(ps, values) == FirstMissing(ps[i..], values)
    {
      assert ps[i..][1..] == ps[i + 1..];
      if ps[i].name !in values {
        return Err(NoValueFor(ps[i].name));
      }
      i := i + 1;
    }
    var bot := new Bot(ps, values);
    r := Ok(bot);
  }

  lemma DistinctTail(ps: seq<Decl>)
    requires DistinctNames(ps) && ps != []
    ensures DistinctNames(ps[1..])
    ensures forall i :: 0 <= i < |ps[1..]| ==> ps[1..][i] == ps[i + 1] && ps[i + 1].name != ps[0].name
  {
  }

  /**
   * The INI loop fails exactly when some INI value neither parses nor is
   * replaced on the command line; otherwise each parameter whose INI value
   * parses takes it, and the others keep what they had.
   */
  lemma {:induction false} OverlayOutcome(ps: seq<Decl>, cli: map<string, Value>, opts: map<string, string>, acc: map<string, Value>)
    requires DistinctNames(ps)
    ensures Overlay(ps, cli, opts, acc).Err? <==> exists i :: 0 <= i < |ps| && IniFails(ps[i], cli, opts)
    ensures Overlay(ps, cli, opts, acc).Err? ==>
      exists i :: (0 <= i < |ps| && IniFails(ps[i], cli, opts) &&
        Overlay(ps, cli, opts, acc) == Err(BadValue(ps[i].name, ParseAs(ps[i].kind, ps[i].default, Some(opts[ps[i].name])).error)))
    ensures Overlay(ps, cli, opts, acc).Ok? ==> forall i :: 0 <= i < |ps| ==>
      var m, n := Overlay(ps, cli, opts, acc).value, ps[i].name;
      (n in m <==> n in acc || IniReads(ps[i], opts))
      && (IniReads(ps[i], opts) ==> Ok(m[n]) == ParseAs(ps[i].kind, ps[i].default, Some(opts[n])))
      && (!IniReads(ps[i], opts) && n in acc ==> m[n] == acc[n])
    decreases |ps|
  {
    if ps != [] {
      var p := ps[0];
      var next := if IniReads(p, opts) then acc[p.name := ParseAs(p.kind, p.default, Some(opts[p.name])).value] else acc;
      DistinctTail(ps);
      OverlayOutcome(ps[1..], cli, opts, next);
      if Overlay(ps, cli, opts, acc).Err? && !IniFails(p, cli, opts) {
        var i :| 0 <= i < |ps[1..]| && IniFails(ps[1..][i], cli, opts);
        assert ps[i + 1] == ps[1..][i];
      }
      if (exists i :: 0 <= i < |ps| && IniFails(ps[i], cli, opts)) && !IniFails(p, cli, opts) {
        var i :| 0 <= i < |ps| && IniFails(ps[i], cli, opts);
        assert ps[1..][i - 1] == ps[i];
      }
      if Overlay(ps, cli, opts, acc).Ok? {
        OverlayUntouched(ps[1..], cli, opts, next, p.name);
      }
    }
  }

  /** The INI loop leaves alone a name none of its parameters has. */
  lemma {:induction false} OverlayUntouched(ps: seq<Decl>, cli: map<string, Value>, opts: map<string, string>, acc: map<string, Value>, n: string)
    requires forall j :: 0 <= j < |ps| ==> ps[j].name != n
    requires Overlay(ps, cli, opts, acc).Ok?
    ensures n in Overlay(ps, cli, opts, acc).value <==> n in acc
    ensures n in acc ==> Overlay(ps, cli, opts, acc).value[n] == acc[n]
    decreases |ps|
  {
    if ps != [] {
      var p := ps[0];
      var next := if IniReads(p, opts) then acc[p.name := ParseAs(p.kind, p.default, Some(opts[p.name])).value] else acc;
      assert forall j :: 0 <= j < |ps[1..]| ==> ps[1..][j] == ps[j + 1];
      OverlayUntouched(ps[1..], cli, opts, next, n);
    }
  }

  /**
   * Precedence of the final values: the command line, else the INI file, else
   * the default; an INI value that does not parse is ignored when the command
   * line supplies the parameter.
   */
  lemma ResolvedValue(ps: seq<Decl>, cli: map<string, Value>, config: map<Value, map<string, string>>, i: int)
    requires DistinctNames(ps) && 0 <= i < |ps| && Resolve(ps, cli, config).Ok?
    ensures var m, n, opts := Resolve(ps, cli, config).value, ps[i].name, IniOptions(ps, cli, config);
      n in m
      && (n in cli ==> m[n] == cli[n])
      && (n !in cli && n in opts ==> Ok(m[n]) == ParseAs(ps[i].kind, ps[i].default, Some(opts[n])))
      && (n !in cli && n !in opts ==> ps[i].default.Given? && m[n] == ps[i].default.value)
  {
    var opts := IniOptions(ps, cli, config);
    var defaults := ParamDefaults(ps);
    DefaultsOf(ps, i);
    OverlayOutcome(ps, cli, opts, defaults);
  }

  /** Why `from_command_line` stops: each error names a parameter that is in that state. */
  lemma ResolveErrors(ps: seq<Decl>, cli: map<string, Value>, config: map<Value, map<string, string>>)
    requires DistinctNames(ps)
    ensures var opts := IniOptions(ps, cli, config);
      Resolve(ps, cli, config) == Err(NoBotNameDefault) <==>
        ReadsIni(cli) && ("ini_section" !in cli || cli["ini_section"] == NoneValue) && "bot_name" !in ParamDefaults(ps)
    ensures var opts := IniOptions(ps, cli, config);
      forall n, e :: Resolve(ps, cli, config) == Err(BadValue(n, e)) ==>
        exists i :: 0 <= i < |ps| && ps[i].name == n && IniFails(ps[i], cli, opts)
    ensures var opts := IniOptions(ps, cli, config);
      forall n :: Resolve(ps, cli, config) == Err(NoValueFor(n)) ==>
        exists i :: 0 <= i < |ps| && ps[i].name == n && n !in cli && n !in opts && ps[i].default == NoValue
  {
    var opts := IniOptions(ps, cli, config);
    var defaults := ParamDefaults(ps);
    OverlayOutcome(ps, cli, opts, defaults);
    forall n | Resolve(ps, cli, config) == Err(NoValueFor(n))
      ensures exists i :: 0 <= i < |ps| && ps[i].name == n && n !in cli && n !in opts && ps[i].default == NoValue
    {
      var start := if ReadsIni(cli) then Overlay(ps, cli, opts, defaults) else Ok(defaults);
      var i :| 0 <= i < |ps| && ps[i].name == n && n !in start.value + cli;
      DefaultsOf(ps, i);
    }
  }

  /** With the INI loop done, a parameter has a value from the command line, the INI file or its default. */
  lemma ValueSource(ps: seq<Decl>, cli: map<string, Value>, opts: map<string, string>, i: int)
    requires DistinctNames(ps) && 0 <= i < |ps| && Overlay(ps, cli, opts, ParamDefaults(ps)).Ok?
    ensures ps[i].name in Overlay(ps, cli, opts, ParamDefaults(ps)).value + cli <==>
      ps[i].name in cli || ps[i].name in opts || ps[i].default.Given?
  {
    OverlayOutcome(ps, cli, opts, ParamDefaults(ps));
    DefaultsOf(ps, i);
  }

  /** The INI loop fails exactly when some INI value fails. */
  lemma OverlayFails(ps: seq<Decl>, cli: map<string, Value>, opts: map<string, string>, acc: map<string, Value>)
    requires DistinctNames(ps)
    ensures Overlay(ps, cli, opts, acc).Err? <==> exists i :: 0 <= i < |ps| && IniFails(ps[i], cli, opts)
  {
    OverlayOutcome(ps, cli, opts, acc);
  }

  /** With the INI file read, `from_command_line` succeeds when the INI loop does and nothing is missing after it. */
  lemma ResolveWithIni(ps: seq<Decl>, cli: map<string, Value>, config: map<Value, map<string, string>>)
    requires ReadsIni(cli) && Section(cli, ParamDefaults(ps)).Ok?
    ensures var o := Overlay(ps, cli, IniOptions(ps, cli, config), ParamDefaults(ps));
      Resolve(ps, cli, config).Ok? <==> o.Ok? && forall i :: 0 <= i < |ps| ==> ps[i].name in o.value + cli
  {
  }

  lemma ResolveSucceedsWithIni(ps: seq<Decl>, cli: map<string, Value>, config: map<Value, map<string, string>>)
    requires DistinctNames(ps) && ReadsIni(cli) && Section(cli, ParamDefaults(ps)).Ok?
    ensures var opts := IniOptions(ps, cli, config);
      Resolve(ps, cli, config).Ok? <==>
        (forall i :: 0 <= i < |ps| ==> !IniFails(ps[i], cli, opts))
        && (forall i :: 0 <= i < |ps| ==> ps[i].name in cli || ps[i].name in opts || ps[i].default.Given?)
  {
    var opts := IniOptions(ps, cli, config);
    ResolveWithIni(ps, cli, config);
    OverlayFails(ps, cli, opts, ParamDefaults(ps));
    if Overlay(ps, cli, opts, ParamDefaults(ps)).Ok? {
      forall i | 0 <= i < |ps|
        ensures ps[i].name in Overlay(ps, cli, opts, ParamDefaults(ps)).value + cli <==>
          ps[i].name in cli || ps[i].name in opts || ps[i].default.Given?
      {
        ValueSource(ps, cli, opts, i);
      }
    }
  }

  lemma ResolveSucceedsWithoutIni(ps: seq<Decl>, cli: map<string, Value>, config: map<Value, map<string, string>>)
    requires DistinctNames(ps) && !ReadsIni(cli)
    ensures Resolve(ps, cli, config).Ok? <==> forall i :: 0 <= i < |ps| ==> ps[i].name in cli || ps[i].default.Given?
  {
    forall i | 0 <= i < |ps| {
      DefaultsOf(ps, i);
    }
  }

  /** `from_command_line` succeeds exactly when no INI value fails and every parameter has a value from somewhere. */
  lemma ResolveSucceeds(ps: seq<Decl>, cli: map<string, Value>, config: map<Value, map<string, string>>)
    requires DistinctNames(ps)
    requires !ReadsIni(cli) || Section(cli, ParamDefaults(ps)).Ok?
    ensures var opts := IniOptions(ps, cli, config);
      Resolve(ps, cli, config).Ok? <==>
        (forall i :: 0 <= i < |ps| ==> !IniFails(ps[i], cli, opts))
        && (forall i :: 0 <= i < |ps| ==> ps[i].name in cli || ps[i].name in opts || ps[i].default.Given?)
  {
    if ReadsIni(cli) {
      ResolveSucceedsWithIni(ps, cli, config);
    } else {
      ResolveSucceedsWithoutIni(ps, cli, config);
    }
  }
}
