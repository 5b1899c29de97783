/**
 * The formatter of abusehelper/core/rules/rulelang.py: a registry from the
 * type of an object to its handler, and the walk over an explicit stack of
 * handler outputs that prints an atom or a rule.
 *
 * A handler is a generator whose items are text, or the handler output of a
 * part of the object, which the walk expands in place. `format_star` alone
 * answers bare text instead of a generator: that text is printed as it is where
 * a part of an object is expanded, but it cannot start the walk.
 *
 * The order in which a Python set hands out the subrules of `And`/`Or` is a
 * parameter `iterate` of the model, any enumeration of each set without repetition.
 */
module Formatter {
  import opened Wrappers
  import opened Text
  import opened Rules
  import opened Lexer

  /** The registry keys: the Python types of atoms and rules. */
  datatype Tag =
    | RegExpType | StringType | IPType | StarType
    | FuzzyType | NonMatchType | MatchType | AndType | OrType | NoType

  /** What `format` is given: an atom or a rule. */
  datatype Obj = AtomObj(atom: Atom) | RuleObj(rule: Rule)

  function TagOf(o: Obj): Tag
  {
    match o
    case AtomObj(a) => (
      match a
      case RegExp(_, _) => RegExpType
      case String(_) => StringType
      case IP(_) => IPType
      case Star => StarType)
    case RuleObj(r) => (
      match r
      case Fuzzy(_) => FuzzyType
      case NonMatch(_, _) => NonMatchType
      case Match(_, _) => MatchType
      case And(_) => AndType
      case Or(_) => OrType
      case No(_) => NoType)
  }

  /** The `format_*` handlers. */
  datatype Handler =
    | RegexpFormat | StringFormat | IpFormat | StarFormat
    | FuzzyFormat | NonMatchFormat | MatchFormat | AndFormat | OrFormat | NoFormat

  /** An item a handler yields: text, or the handler output for a part of the object. */
  datatype Item = Chunk(text: string) | Nested(obj: Obj)

  /** A handler's answer: a generator of items, or (for `format_star`) bare text. */
  datatype Gen = Items(items: seq<Item>) | Bare(text: string)

  datatype FormatError =
    | UnknownType(tag: Tag)  // the TypeError of `_format_gen`: no handler for the type
    | NotIterable            // the walk started on bare text
    | MissingAttribute       // a handler registered for a type without the attributes it reads

  /** `iterate` lists every element of each set exactly once. */
  ghost predicate IsEnumeration(s: set<Rule>, xs: seq<Rule>)
  {
    (forall i :: 0 <= i < |xs| ==> xs[i] in s)
    && (forall x :: x in s ==> x in xs)
    && (forall i, j :: 0 <= i < j < |xs| ==> xs[i] != xs[j])
  }

  ghost predicate Enumerates(iterate: set<Rule> -> seq<Rule>)
  {
    forall s :: IsEnumeration(s, iterate(s))
  }

  /** Some order of the elements of a set: every set has an enumeration. */
  ghost function SomeOrder(s: set<Rule>): (xs: seq<Rule>)
    ensures IsEnumeration(s, xs)
    decreases s
  {
    if s == {} then []
    else
      var x :| x in s;
      var tail := SomeOrder(s - {x});
      assert forall i :: 0 <= i < |tail| ==> tail[i] != x;
      [x] + tail
  }

  /** The order `SomeOrder` picks is an `iterate` the formatter can be given. */
  lemma {:induction false} SomeOrderEnumerates(iterate: set<Rule> -> seq<Rule>)
    requires forall s :: iterate(s) == SomeOrder(s)
    ensures Enumerates(iterate)
  {
    forall s
      ensures IsEnumeration(s, iterate(s))
    {
      assert iterate(s) == SomeOrder(s);
    }
  }

  // ---------------------------------------------------------------------
  // Heights: every part a handler asks for is lower than the object itself

  function Max(a: nat, b: nat): nat
  {
    if a < b then b else a
  }

  ghost function RuleHeight(r: Rule): (h: nat)
    ensures h >= 1
    decreases r, 1
  {
    match r
    case And(s) => 1 + SetHeight(r, s)
    case Or(s) => 1 + SetHeight(r, s)
    case No(x) => 1 + RuleHeight(x)
    case _ => 1
  }

  ghost function SetHeight(parent: Rule, s: set<Rule>): nat
    requires (parent.And? || parent.Or?) && s <= parent.subrules
    decreases parent, 0, s
  {
    if s == {} then 0
    else
      var x :| x in s;
      Max(RuleHeight(x), SetHeight(parent, s - {x}))
  }

  lemma {:induction false} SetHeightBounds(parent: Rule, s: set<Rule>, y: Rule)
    requires (parent.And? || parent.Or?) && s <= parent.subrules
    requires y in s
    ensures RuleHeight(y) <= SetHeight(parent, s)
    decreases s
  {
    var x :| x in s && SetHeight(parent, s) == Max(RuleHeight(x), SetHeight(parent, s - {x}));
    if y != x {
      assert y in s - {x};
      SetHeightBounds(parent, s - {x}, y);
      assert RuleHeight(y) <= SetHeight(parent, s - {x});
    }
    var m := Max(RuleHeight(x), SetHeight(parent, s - {x}));
    assert m >= RuleHeight(x) && m >= SetHeight(parent, s - {x});
    assert RuleHeight(y) <= m;
  }

  /** A subrule is lower than its `And`/`Or`. */
  lemma SubruleIsLower(r: Rule, y: Rule)
    requires (r.And? || r.Or?) && y in r.subrules
    ensures RuleHeight(y) < RuleHeight(r)
  {
    SetHeightBounds(r, r.subrules, y);
  }

  ghost function ObjHeight(o: Obj): nat
  {
    match o
    case AtomObj(_) => 0
    case RuleObj(r) => RuleHeight(r)
  }

  /** Every part named in `items` is lower than `bound`. */
  ghost predicate Below(items: seq<Item>, bound: nat)
  {
    forall i :: 0 <= i < |items| && items[i].Nested? ==> ObjHeight(items[i].obj) < bound
  }

  // ---------------------------------------------------------------------
  // The handlers

  /** `format_no` leaves these operands unparenthesised. */
  predicate IsUnit(r: Rule)
  {
    r.No? || r.Match? || r.NonMatch? || r.Fuzzy?
  }

  /** The items of `format_and`/`format_or`: each subrule in parentheses, separated by the connective. */
  function JoinItems(xs: seq<Rule>, sep: string, first: bool): seq<Item>
  {
    if xs == [] then []
    else
      (if first then [] else [Chunk(sep)])
      + [Chunk("("), Nested(RuleObj(xs[0])), Chunk(")")]
      + JoinItems(xs[1..], sep, false)
  }

  lemma {:induction false} JoinItemsBelow(r: Rule, xs: seq<Rule>, sep: string, first: bool)
    requires r.And? || r.Or?
    requires forall i :: 0 <= i < |xs| ==> xs[i] in r.subrules
    ensures Below(JoinItems(xs, sep, first), RuleHeight(r))
  {
    if xs != [] {
      SubruleIsLower(r, xs[0]);
      JoinItemsBelow(r, xs[1..], sep, false);
      var head := (if first then [] else [Chunk(sep)]) + [Chunk("("), Nested(RuleObj(xs[0])), Chunk(")")];
      var items := JoinItems(xs, sep, first);
      assert items == head + JoinItems(xs[1..], sep, false);
      forall i | 0 <= i < |items| && items[i].Nested?
        ensures ObjHeight(items[i].obj) < RuleHeight(r)
      {
        if i >= |head| {
          assert items[i] == JoinItems(xs[1..], sep, false)[i - |head|];
        }
      }
    }
  }

  /**
   * What a handler makes of an object. A handler reads attributes of the object
   * by name, so the `Match`/`NonMatch` handlers accept either kind, the `And`/`Or`
   * handlers accept either kind, `format_star` accepts anything, and a handler
   * given any other object fails.
   */
  function Apply(h: Handler, o: Obj, iterate: set<Rule> -> seq<Rule>): (r: Result<Gen, FormatError>)
    requires Enumerates(iterate)
    ensures r.Ok? && r.value.Items? ==> Below(r.value.items, ObjHeight(o))
  {
    match h
    case RegexpFormat =>
      if o.AtomObj? && o.atom.RegExp? then Ok(Items([Chunk(FormatRegexpAsWritten(o.atom.pattern, o.atom.ignoreCase))]))
      else Err(MissingAttribute)
    case StringFormat =>
      if o.AtomObj? && o.atom.String? then Ok(Items([Chunk(FormatStringAsWritten(o.atom.value))])) else Err(MissingAttribute)
    case IpFormat =>
      if o.AtomObj? && o.atom.IP? then Ok(Items([Chunk(o.atom.range)])) else Err(MissingAttribute)
    case StarFormat => Ok(Bare("*"))
    case FuzzyFormat =>
      if o.RuleObj? && o.rule.Fuzzy? then Ok(Items([Nested(AtomObj(o.rule.atom))])) else Err(MissingAttribute)
    case MatchFormat =>
      if o.RuleObj? && (o.rule.Match? || o.rule.NonMatch?) then
        Ok(Items([Nested(AtomObj(o.rule.key)), Chunk(if o.rule.value.IP? then " in " else "="), Nested(AtomObj(o.rule.value))]))
      else Err(MissingAttribute)
    case NonMatchFormat =>
      if o.RuleObj? && (o.rule.Match? || o.rule.NonMatch?) then
        Ok(Items([Nested(AtomObj(o.rule.key)), Chunk(if o.rule.value.IP? then " not in " else "!="), Nested(AtomObj(o.rule.value))]))
      else Err(MissingAttribute)
    case AndFormat =>
      if o.RuleObj? && (o.rule.And? || o.rule.Or?) then
        JoinItemsBelow(o.rule, iterate(o.rule.subrules), " and ", true);
        Ok(Items(JoinItems(iterate(o.rule.subrules), " and ", true)))
      else Err(MissingAttribute)
    case OrFormat =>
      if o.RuleObj? && (o.rule.And? || o.rule.Or?) then
        JoinItemsBelow(o.rule, iterate(o.rule.subrules), " or ", true);
        Ok(Items(JoinItems(iterate(o.rule.subrules), " or ", true)))
      else Err(MissingAttribute)
    case NoFormat =>
      if o.RuleObj? && o.rule.No? then
        var x := o.rule.subrule;
        Ok(Items([Chunk("no ")] + if IsUnit(x) then [Nested(RuleObj(x))] else [Chunk("("), Nested(RuleObj(x)), Chunk(")")]))
      else Err(MissingAttribute)
  }

  // ---------------------------------------------------------------------
  // The recursive expansion the walk computes

  /** Text followed by text; the first error wins. */
  function Join(a: Result<string, FormatError>, b: Result<string, FormatError>): Result<string, FormatError>
  {
    if a.Err? then a else if b.Err? then b else Ok(a.value + b.value)
  }

  lemma JoinAssociates(a: Result<string, FormatError>, b: Result<string, FormatError>, c: Result<string, FormatError>)
    ensures Join(Join(a, b), c) == Join(a, Join(b, c))
  {
    if a.Ok? && b.Ok? && c.Ok? {
      assert a.value + b.value + c.value == a.value + (b.value + c.value);
    }
  }

  /** `_format_gen` of a part, expanded: bare text stands for itself. */
  function RenderCall(types: map<Tag, Handler>, o: Obj, iterate: set<Rule> -> seq<Rule>): Result<string, FormatError>
    requires Enumerates(iterate)
    decreases ObjHeight(o), 1
  {
    if TagOf(o) !in types then Err(UnknownType(TagOf(o)))
    else
      match Apply(types[TagOf(o)], o, iterate)
      case Err(e) => Err(e)
      case Ok(Bare(t)) => Ok(t)
      case Ok(Items(items)) => RenderItems(types, ObjHeight(o), items, iterate)
  }

  function RenderItems(types: map<Tag, Handler>, ghost bound: nat, items: seq<Item>, iterate: set<Rule> -> seq<Rule>)
    : Result<string, FormatError>
    requires Enumerates(iterate) && Below(items, bound)
    decreases bound, 0, |items|
  {
    if items == [] then Ok("")
    else
      var head := match items[0]
        case Chunk(t) => Ok(t)
        case Nested(p) => RenderCall(types, p, iterate);
      Join(head, RenderItems(types, bound, items[1..], iterate))
  }

  /** What `format` answers: the walk must start on a generator. */
  function RenderTop(types: map<Tag, Handler>, o: Obj, iterate: set<Rule> -> seq<Rule>): Result<string, FormatError>
    requires Enumerates(iterate)
  {
    if TagOf(o) !in types then Err(UnknownType(TagOf(o)))
    else
      match Apply(types[TagOf(o)], o, iterate)
      case Err(e) => Err(e)
      case Ok(Bare(_)) => Err(NotIterable)
      case Ok(Items(items)) => RenderItems(types, ObjHeight(o), items, iterate)
  }

  // ---------------------------------------------------------------------
  // The stack walk

  ghost predicate FramesBelow(stack: seq<seq<Item>>, bounds: seq<nat>)
  {
    |stack| == |bounds| && forall i :: 0 <= i < |stack| ==> Below(stack[i], bounds[i])
  }

  /** The text still to come from a stack of partly consumed generators, top first. */
  function Pending(types: map<Tag, Handler>, stack: seq<seq<Item>>, ghost bounds: seq<nat>, iterate: set<Rule> -> seq<Rule>)
    : Result<string, FormatError>
    requires Enumerates(iterate) && FramesBelow(stack, bounds)
    decreases |stack|
  {
    if stack == [] then Ok("")
    else
      var n := |stack| - 1;
      Join(RenderItems(types, bounds[n], stack[n], iterate), Pending(types, stack[..n], bounds[..n], iterate))
  }

  ghost function CallWork(types: map<Tag, Handler>, o: Obj, iterate: set<Rule> -> seq<Rule>): nat
    requires Enumerates(iterate)
    decreases ObjHeight(o), 1
  {
    if TagOf(o) !in types then 1
    else
      match Apply(types[TagOf(o)], o, iterate)
      case Ok(Items(items)) => 2 + ItemsWork(types, ObjHeight(o), items, iterate)
      case _ => 1
  }

  ghost function ItemsWork(types: map<Tag, Handler>, bound: nat, items: seq<Item>, iterate: set<Rule> -> seq<Rule>): nat
    requires Enumerates(iterate) && Below(items, bound)
    decreases bound, 0, |items|
  {
    if items == [] then 0
    else
      var head := match items[0]
        case Chunk(_) => 1
        case Nested(p) => CallWork(types, p, iterate);
      head + ItemsWork(types, bound, items[1..], iterate)
  }

  ghost function StackWork(types: map<Tag, Handler>, stack: seq<seq<Item>>, bounds: seq<nat>, iterate: set<Rule> -> seq<Rule>): nat
    requires Enumerates(iterate) && FramesBelow(stack, bounds)
    decreases |stack|
  {
    if stack == [] then 0
    else
      var n := |stack| - 1;
      1 + ItemsWork(types, bounds[n], stack[n], iterate) + StackWork(types, stack[..n], bounds[..n], iterate)
  }

  /** Appends text produced so far to what is still to come. */
  function Append(out: string, r: Result<string, FormatError>): Result<string, FormatError>
  {
    if r.Err? then r else Ok(out + r.value)
  }

  lemma EmptyTail(a: Result<string, FormatError>)
    ensures Join(a, Ok("")) == a && Append("", a) == a
  {
    if a.Ok? {
      assert a.value + "" == a.value && "" + a.value == a.value;
    }
  }

  lemma EmptyHead(a: Result<string, FormatError>)
    ensures Join(Ok(""), a) == a
  {
    if a.Ok? {
      assert "" + a.value == a.value;
    }
  }

  lemma AppendChunk(out: string, t: string, b: Result<string, FormatError>)
    ensures Append(out, Join(Ok(t), b)) == Append(out + t, b)
  {
    if b.Ok? {
      assert out + (t + b.value) == out + t + b.value;
    }
  }

  /** Consuming the first item of the top generator keeps every frame below its bound. */
  lemma DropFirst(stack: seq<seq<Item>>, bounds: seq<nat>)
    requires FramesBelow(stack, bounds) && stack != [] && stack[|stack| - 1] != []
    ensures FramesBelow(stack[..|stack| - 1] + [stack[|stack| - 1][1..]], bounds)
  {
    var n := |stack| - 1;
    var s' := stack[..n] + [stack[n][1..]];
    forall i | 0 <= i < |s'|
      ensures Below(s'[i], bounds[i])
    {
      if i == n {
        assert forall j :: 0 <= j < |stack[n][1..]| ==> stack[n][1..][j] == stack[n][j + 1];
      } else {
        assert s'[i] == stack[i];
      }
    }
  }

  /** What the first item of a generator expands to, and the steps the walk spends on it. */
  function HeadText(types: map<Tag, Handler>, item: Item, iterate: set<Rule> -> seq<Rule>): Result<string, FormatError>
    requires Enumerates(iterate)
  {
    match item
    case Chunk(t) => Ok(t)
    case Nested(p) => RenderCall(types, p, iterate)
  }

  ghost function HeadWork(types: map<Tag, Handler>, item: Item, iterate: set<Rule> -> seq<Rule>): nat
    requires Enumerates(iterate)
  {
    match item
    case Chunk(_) => 1
    case Nested(p) => CallWork(types, p, iterate)
  }

  /** A finished generator is popped: nothing of the text to come is lost. */
  lemma PopFrame(types: map<Tag, Handler>, stack: seq<seq<Item>>, bounds: seq<nat>, iterate: set<Rule> -> seq<Rule>)
    requires Enumerates(iterate) && FramesBelow(stack, bounds) && stack != [] && stack[|stack| - 1] == []
    ensures var n := |stack| - 1;
            FramesBelow(stack[..n], bounds[..n])
            && Pending(types, stack, bounds, iterate) == Pending(types, stack[..n], bounds[..n], iterate)
            && StackWork(types, stack[..n], bounds[..n], iterate) < StackWork(types, stack, bounds, iterate)
  {
    var n := |stack| - 1;
    assert FramesBelow(stack[..n], bounds[..n]);
    EmptyHead(Pending(types, stack[..n], bounds[..n], iterate));
  }

  /** The next item of the top generator comes first in the text to come, and the rest of the stack after it. */
  lemma SplitTop(types: map<Tag, Handler>, stack: seq<seq<Item>>, bounds: seq<nat>, iterate: set<Rule> -> seq<Rule>)
    requires Enumerates(iterate) && FramesBelow(stack, bounds) && stack != [] && stack[|stack| - 1] != []
    ensures var n := |stack| - 1;
            var next := stack[..n] + [stack[n][1..]];
            FramesBelow(next, bounds)
            && Pending(types, stack, bounds, iterate)
               == Join(HeadText(types, stack[n][0], iterate), Pending(types, next, bounds, iterate))
            && StackWork(types, stack, bounds, iterate)
               == HeadWork(types, stack[n][0], iterate) + StackWork(types, next, bounds, iterate)
  {
    var n := |stack| - 1;
    var top := stack[n];
    var next := stack[..n] + [top[1..]];
    DropFirst(stack, bounds);
    assert next[..n] == stack[..n] && next[n] == top[1..];
    var rest := Pending(types, stack[..n], bounds[..n], iterate);
    var tail := RenderItems(types, bounds[n], top[1..], iterate);
    var head := HeadText(types, top[0], iterate);
    assert Pending(types, next, bounds, iterate) == Join(tail, rest);
    assert RenderItems(types, bounds[n], top, iterate) == Join(head, tail);
    JoinAssociates(head, tail, rest);
    assert ItemsWork(types, bounds[n], top, iterate)
           == HeadWork(types, top[0], iterate) + ItemsWork(types, bounds[n], top[1..], iterate);
  }

  /** A generator pushed on the stack stands for the expansion of the part it came from. */
  lemma PushFrame(types: map<Tag, Handler>, stack: seq<seq<Item>>, bounds: seq<nat>, items: seq<Item>, h: nat,
                  iterate: set<Rule> -> seq<Rule>)
    requires Enumerates(iterate) && FramesBelow(stack, bounds) && Below(items, h)
    ensures FramesBelow(stack + [items], bounds + [h])
    ensures Pending(types, stack + [items], bounds + [h], iterate)
            == Join(RenderItems(types, h, items, iterate), Pending(types, stack, bounds, iterate))
    ensures StackWork(types, stack + [items], bounds + [h], iterate)
            == 1 + ItemsWork(types, h, items, iterate) + StackWork(types, stack, bounds, iterate)
  {
    var n := |stack|;
    assert (stack + [items])[..n] == stack && (bounds + [h])[..n] == bounds;
    assert FramesBelow(stack + [items], bounds + [h]);
  }

  // ---------------------------------------------------------------------
  // The module's own registry and the text it prints

  /** The registry the `@formatter.handler` declarations fill. */
  function DefaultTypes(): map<Tag, Handler>
  {
    map[RegExpType := RegexpFormat, StringType := StringFormat, IPType := IpFormat, StarType := StarFormat,
        FuzzyType := FuzzyFormat, NonMatchType := NonMatchFormat, MatchType := MatchFormat,
        AndType := AndFormat, OrType := OrFormat, NoType := NoFormat]
  }

  /** The printed form of an atom, as `format_string`, `format_regexp`, `format_ip` and `format_star` are written. */
  function AtomText(a: Atom): string
  {
    match a
    case String(v) => FormatStringAsWritten(v)
    case RegExp(p, ignoreCase) => FormatRegexpAsWritten(p, ignoreCase)
    case IP(range) => range
    case Star => "*"
  }

  /** The printed form of a rule, written as a direct recursion. */
  function RuleText(r: Rule, iterate: set<Rule> -> seq<Rule>): string
    requires Enumerates(iterate)
    decreases r, 1
  {
    match r
    case Match(k, v) => AtomText(k) + (if v.IP? then " in " else "=") + AtomText(v)
    case NonMatch(k, v) => AtomText(k) + (if v.IP? then " not in " else "!=") + AtomText(v)
    case Fuzzy(a) => AtomText(a)
    case And(s) => JoinText(r, iterate(s), " and ", true, iterate)
    case Or(s) => JoinText(r, iterate(s), " or ", true, iterate)
    case No(x) => "no " + if IsUnit(x) then RuleText(x, iterate) else "(" + RuleText(x, iterate) + ")"
  }

  function JoinText(parent: Rule, xs: seq<Rule>, sep: string, first: bool, iterate: set<Rule> -> seq<Rule>): string
    requires Enumerates(iterate)
    requires (parent.And? || parent.Or?) && forall i :: 0 <= i < |xs| ==> xs[i] in parent.subrules
    decreases parent, 0, |xs|
  {
    if xs == [] then ""
    else (if first then "" else sep) + "(" + RuleText(xs[0], iterate) + ")" + JoinText(parent, xs[1..], sep, false, iterate)
  }

  /** With its own registry, the expansion of every atom but `*` is its printed form. */
  lemma DefaultRendersAtom(a: Atom, iterate: set<Rule> -> seq<Rule>)
    requires Enumerates(iterate)
    ensures RenderCall(DefaultTypes(), AtomObj(a), iterate) == Ok(AtomText(a))
    ensures !a.Star? ==> RenderTop(DefaultTypes(), AtomObj(a), iterate) == Ok(AtomText(a))
    ensures a.Star? ==> RenderTop(DefaultTypes(), AtomObj(a), iterate) == Err(NotIterable)
  {
    var types := DefaultTypes();
    var o := AtomObj(a);
    var t := AtomText(a);
    if !a.Star? {
      assert Apply(types[TagOf(o)], o, iterate) == Ok(Items([Chunk(t)]));
      SingleChunk(types, 0, t, iterate);
    }
  }

  lemma SingleChunk(types: map<Tag, Handler>, bound: nat, t: string, iterate: set<Rule> -> seq<Rule>)
    requires Enumerates(iterate)
    ensures RenderItems(types, bound, [Chunk(t)], iterate) == Ok(t)
  {
    assert [Chunk(t)][1..] == [];
    assert t + "" == t;
  }

  lemma SingleNested(types: map<Tag, Handler>, bound: nat, o: Obj, iterate: set<Rule> -> seq<Rule>)
    requires Enumerates(iterate) && ObjHeight(o) < bound
    ensures RenderItems(types, bound, [Nested(o)], iterate) == RenderCall(types, o, iterate)
  {
    assert [Nested(o)][1..] == [];
    EmptyTail(RenderCall(types, o, iterate));
  }

  lemma BelowConcat(a: seq<Item>, b: seq<Item>, bound: nat)
    requires Below(a, bound) && Below(b, bound)
    ensures Below(a + b, bound)
  {
    forall i | 0 <= i < |a + b| && (a + b)[i].Nested?
      ensures ObjHeight((a + b)[i].obj) < bound
    {
      if i >= |a| {
        assert (a + b)[i] == b[i - |a|];
      }
    }
  }

  /** The expansion of a key, a separator and a value. */
  lemma RendersPair(k: Atom, sep: string, v: Atom, h: nat, iterate: set<Rule> -> seq<Rule>)
    requires Enumerates(iterate) && h >= 1
    ensures Below([Nested(AtomObj(k)), Chunk(sep), Nested(AtomObj(v))], h)
    ensures RenderItems(DefaultTypes(), h, [Nested(AtomObj(k)), Chunk(sep), Nested(AtomObj(v))], iterate)
            == Ok(AtomText(k) + sep + AtomText(v))
  {
    var types := DefaultTypes();
    DefaultRendersAtom(k, iterate);
    DefaultRendersAtom(v, iterate);
    var items := [Nested(AtomObj(k)), Chunk(sep), Nested(AtomObj(v))];
    assert items[1..] == [Chunk(sep), Nested(AtomObj(v))];
    assert items[1..][1..] == [Nested(AtomObj(v))] && items[1..][1..][1..] == [];
    var tv := AtomText(v);
    assert RenderItems(types, h, items[1..][1..], iterate) == Ok(tv + "");
    assert RenderItems(types, h, items[1..], iterate) == Ok(sep + (tv + ""));
    assert RenderItems(types, h, items, iterate) == Ok(AtomText(k) + (sep + (tv + "")));
    assert AtomText(k) + (sep + (tv + "")) == AtomText(k) + sep + tv;
  }

  /** With its own registry, the expansion of a rule is its printed form. */
  lemma {:induction false} DefaultRendersRule(r: Rule, iterate: set<Rule> -> seq<Rule>)
    requires Enumerates(iterate)
    ensures RenderCall(DefaultTypes(), RuleObj(r), iterate) == Ok(RuleText(r, iterate))
    decreases r, 1
  {
    match r
    case Match(_, _) =>
      DefaultRendersPair(r, iterate);
    case NonMatch(_, _) =>
      DefaultRendersPair(r, iterate);
    case Fuzzy(_) =>
      DefaultRendersFuzzy(r, iterate);
    case And(s) =>
      JoinItemsBelow(r, iterate(s), " and ", true);
      DefaultRendersJoin(r, iterate(s), " and ", true, iterate);
      DefaultRendersJoined(r, iterate);
    case Or(s) =>
      JoinItemsBelow(r, iterate(s), " or ", true);
      DefaultRendersJoin(r, iterate(s), " or ", true, iterate);
      DefaultRendersJoined(r, iterate);
    case No(x) =>
      DefaultRendersRule(x, iterate);
      DefaultRendersNo(r, iterate);
  }

  lemma DefaultRendersPair(r: Rule, iterate: set<Rule> -> seq<Rule>)
    requires Enumerates(iterate) && (r.Match? || r.NonMatch?)
    ensures RenderCall(DefaultTypes(), RuleObj(r), iterate) == Ok(RuleText(r, iterate))
  {
    if r.Match? {
      RendersPair(r.key, if r.value.IP? then " in " else "=", r.value, RuleHeight(r), iterate);
    } else {
      RendersPair(r.key, if r.value.IP? then " not in " else "!=", r.value, RuleHeight(r), iterate);
    }
  }

  lemma DefaultRendersFuzzy(r: Rule, iterate: set<Rule> -> seq<Rule>)
    requires Enumerates(iterate) && r.Fuzzy?
    ensures RenderCall(DefaultTypes(), RuleObj(r), iterate) == Ok(RuleText(r, iterate))
  {
    DefaultRendersAtom(r.atom, iterate);
    SingleNested(DefaultTypes(), RuleHeight(r), AtomObj(r.atom), iterate);
  }

  lemma DefaultRendersJoined(r: Rule, iterate: set<Rule> -> seq<Rule>)
    requires Enumerates(iterate) && (r.And? || r.Or?)
    requires var sep := if r.And? then " and " else " or ";
      Below(JoinItems(iterate(r.subrules), sep, true), RuleHeight(r))
      && RenderItems(DefaultTypes(), RuleHeight(r), JoinItems(iterate(r.subrules), sep, true), iterate)
         == Ok(JoinText(r, iterate(r.subrules), sep, true, iterate))
    ensures RenderCall(DefaultTypes(), RuleObj(r), iterate) == Ok(RuleText(r, iterate))
  {
  }

  lemma DefaultRendersNo(r: Rule, iterate: set<Rule> -> seq<Rule>)
    requires Enumerates(iterate) && r.No?
    requires RenderCall(DefaultTypes(), RuleObj(r.subrule), iterate) == Ok(RuleText(r.subrule, iterate))
    ensures RenderCall(DefaultTypes(), RuleObj(r), iterate) == Ok(RuleText(r, iterate))
  {
    var types := DefaultTypes();
    var h := RuleHeight(r);
    var x := r.subrule;
    var body := RuleText(x, iterate);
    if IsUnit(x) {
      SingleNested(types, h, RuleObj(x), iterate);
      RendersAfterChunk(types, h, "no ", [Nested(RuleObj(x))], iterate);
    } else {
      var unit := [Chunk("("), Nested(RuleObj(x)), Chunk(")")];
      assert unit + [] == unit;
      RendersParenthesised(types, h, x, [], iterate);
      RendersAfterChunk(types, h, "no ", unit, iterate);
      assert [Chunk("no ")] + unit == [Chunk("no "), Chunk("("), Nested(RuleObj(x)), Chunk(")")];
      assert "no " + ("(" + (body + (")" + ""))) == RuleText(r, iterate);
    }
  }

  lemma {:induction false} DefaultRendersJoin(parent: Rule, xs: seq<Rule>, sep: string, first: bool, iterate: set<Rule> -> seq<Rule>)
    requires Enumerates(iterate)
    requires (parent.And? || parent.Or?) && forall i :: 0 <= i < |xs| ==> xs[i] in parent.subrules
    ensures Below(JoinItems(xs, sep, first), RuleHeight(parent))
    ensures RenderItems(DefaultTypes(), RuleHeight(parent), JoinItems(xs, sep, first), iterate)
            == Ok(JoinText(parent, xs, sep, first, iterate))
    decreases parent, 0, |xs|
  {
    JoinItemsBelow(parent, xs, sep, first);
    if xs != [] {
      DefaultRendersRule(xs[0], iterate);
      DefaultRendersJoin(parent, xs[1..], sep, false, iterate);
      JoinStep(parent, xs, sep, first, iterate);
    }
  }

  /** One step of the join: the first parenthesised subrule, then the rest. */
  lemma JoinStep(parent: Rule, xs: seq<Rule>, sep: string, first: bool, iterate: set<Rule> -> seq<Rule>)
    requires Enumerates(iterate) && xs != []
    requires (parent.And? || parent.Or?) && forall i :: 0 <= i < |xs| ==> xs[i] in parent.subrules
    requires RenderCall(DefaultTypes(), RuleObj(xs[0]), iterate) == Ok(RuleText(xs[0], iterate))
    requires Below(JoinItems(xs[1..], sep, false), RuleHeight(parent))
    requires RenderItems(DefaultTypes(), RuleHeight(parent), JoinItems(xs[1..], sep, false), iterate)
             == Ok(JoinText(parent, xs[1..], sep, false, iterate))
    ensures Below(JoinItems(xs, sep, first), RuleHeight(parent))
    ensures RenderItems(DefaultTypes(), RuleHeight(parent), JoinItems(xs, sep, first), iterate)
            == Ok(JoinText(parent, xs, sep, first, iterate))
  {
    JoinCore(parent, xs, sep, iterate);
    JoinUnfolds(parent, xs, sep, first, iterate);
    PrefixSeparator(RuleHeight(parent), if first then "" else sep, first,
                    [Chunk("("), Nested(RuleObj(xs[0])), Chunk(")")] + JoinItems(xs[1..], sep, false),
                    "(" + RuleText(xs[0], iterate) + ")" + JoinText(parent, xs[1..], sep, false, iterate), iterate);
  }

  lemma JoinUnfolds(parent: Rule, xs: seq<Rule>, sep: string, first: bool, iterate: set<Rule> -> seq<Rule>)
    requires Enumerates(iterate) && xs != []
    requires (parent.And? || parent.Or?) && forall i :: 0 <= i < |xs| ==> xs[i] in parent.subrules
    ensures JoinItems(xs, sep, first)
            == (if first then [] else [Chunk(sep)]) + ([Chunk("("), Nested(RuleObj(xs[0])), Chunk(")")] + JoinItems(xs[1..], sep, false))
    ensures JoinText(parent, xs, sep, first, iterate)
            == (if first then "" else sep) + ("(" + RuleText(xs[0], iterate) + ")" + JoinText(parent, xs[1..], sep, false, iterate))
  {
    JoinItemsUnfold(xs, sep, first);
    JoinTextUnfold(parent, xs, sep, first, iterate);
  }

  lemma JoinItemsUnfold(xs: seq<Rule>, sep: string, first: bool)
    requires xs != []
    ensures JoinItems(xs, sep, first)
            == (if first then [] else [Chunk(sep)]) + ([Chunk("("), Nested(RuleObj(xs[0])), Chunk(")")] + JoinItems(xs[1..], sep, false))
  {
    var head := if first then [] else [Chunk(sep)];
    var paren := [Chunk("("), Nested(RuleObj(xs[0])), Chunk(")")];
    var rest := JoinItems(xs[1..], sep, false);
    Regroup(head, paren, rest);
  }

  lemma JoinTextUnfold(parent: Rule, xs: seq<Rule>, sep: string, first: bool, iterate: set<Rule> -> seq<Rule>)
    requires Enumerates(iterate) && xs != []
    requires (parent.And? || parent.Or?) && forall i :: 0 <= i < |xs| ==> xs[i] in parent.subrules
    ensures JoinText(parent, xs, sep, first, iterate)
            == (if first then "" else sep) + ("(" + RuleText(xs[0], iterate) + ")" + JoinText(parent, xs[1..], sep, false, iterate))
  {
    var prefix := if first then "" else sep;
    var body := "(" + RuleText(xs[0], iterate) + ")";
    var tail := JoinText(parent, xs[1..], sep, false, iterate);
    Regroup(prefix, "(", RuleText(xs[0], iterate));
    Regroup(prefix, "(" + RuleText(xs[0], iterate), ")");
    Regroup(prefix, body, tail);
  }

  /** The separator chunk, when there is one, in front of items already expanded. */
  lemma PrefixSeparator(h: nat, sep: string, first: bool, items: seq<Item>, t: string, iterate: set<Rule> -> seq<Rule>)
    requires Enumerates(iterate) && Below(items, h) && RenderItems(DefaultTypes(), h, items, iterate) == Ok(t)
    requires first ==> sep == ""
    ensures Below((if first then [] else [Chunk(sep)]) + items, h)
    ensures RenderItems(DefaultTypes(), h, (if first then [] else [Chunk(sep)]) + items, iterate) == Ok(sep + t)
  {
    if first {
      assert [] + items == items;
      assert "" + t == t;
    } else {
      RendersAfterChunk(DefaultTypes(), h, sep, items, iterate);
    }
  }

  /** The first parenthesised subrule followed by the rest of the join. */
  lemma JoinCore(parent: Rule, xs: seq<Rule>, sep: string, iterate: set<Rule> -> seq<Rule>)
    requires Enumerates(iterate) && xs != []
    requires (parent.And? || parent.Or?) && forall i :: 0 <= i < |xs| ==> xs[i] in parent.subrules
    requires RenderCall(DefaultTypes(), RuleObj(xs[0]), iterate) == Ok(RuleText(xs[0], iterate))
    requires Below(JoinItems(xs[1..], sep, false), RuleHeight(parent))
    requires RenderItems(DefaultTypes(), RuleHeight(parent), JoinItems(xs[1..], sep, false), iterate)
             == Ok(JoinText(parent, xs[1..], sep, false, iterate))
    ensures Below([Chunk("("), Nested(RuleObj(xs[0])), Chunk(")")] + JoinItems(xs[1..], sep, false), RuleHeight(parent))
    ensures RenderItems(DefaultTypes(), RuleHeight(parent),
                        [Chunk("("), Nested(RuleObj(xs[0])), Chunk(")")] + JoinItems(xs[1..], sep, false), iterate)
            == Ok("(" + RuleText(xs[0], iterate) + ")" + JoinText(parent, xs[1..], sep, false, iterate))
  {
    SubruleIsLower(parent, xs[0]);
    RendersParenthesised(DefaultTypes(), RuleHeight(parent), xs[0], JoinItems(xs[1..], sep, false), iterate);
    var body, restText := RuleText(xs[0], iterate), JoinText(parent, xs[1..], sep, false, iterate);
    Regroup(body, ")", restText);
    Regroup("(", body + ")", restText);
    Regroup("(", body, ")");
  }

  lemma RendersAfterChunk(types: map<Tag, Handler>, h: nat, t: string, items: seq<Item>, iterate: set<Rule> -> seq<Rule>)
    requires Enumerates(iterate) && Below(items, h)
    ensures Below([Chunk(t)] + items, h)
    ensures RenderItems(types, h, [Chunk(t)] + items, iterate) == Join(Ok(t), RenderItems(types, h, items, iterate))
  {
    BelowConcat([Chunk(t)], items, h);
    assert ([Chunk(t)] + items)[1..] == items;
  }

  /** The expansion of a parenthesised subrule followed by more items. */
  lemma RendersParenthesised(types: map<Tag, Handler>, h: nat, x: Rule, rest: seq<Item>, iterate: set<Rule> -> seq<Rule>)
    requires Enumerates(iterate) && RuleHeight(x) < h && Below(rest, h)
    ensures Below([Chunk("("), Nested(RuleObj(x)), Chunk(")")] + rest, h)
    ensures RenderItems(types, h, [Chunk("("), Nested(RuleObj(x)), Chunk(")")] + rest, iterate)
            == Join(Ok("("), Join(RenderCall(types, RuleObj(x), iterate), Join(Ok(")"), RenderItems(types, h, rest, iterate))))
  {
    var items := [Chunk("("), Nested(RuleObj(x)), Chunk(")")] + rest;
    BelowConcat([Chunk("("), Nested(RuleObj(x)), Chunk(")")], rest, h);
    assert items[1..] == [Nested(RuleObj(x)), Chunk(")")] + rest;
    assert items[1..][1..] == [Chunk(")")] + rest;
    assert items[1..][1..][1..] == rest;
    assert RenderItems(types, h, items[1..][1..], iterate) == Join(Ok(")"), RenderItems(types, h, rest, iterate));
    assert RenderItems(types, h, items[1..], iterate)
        == Join(RenderCall(types, RuleObj(x), iterate), RenderItems(types, h, items[1..][1..], iterate));
  }

  /** An object whose type has no handler is refused with the type's name. */
  lemma UnregisteredTypeIsRefused(types: map<Tag, Handler>, o: Obj, iterate: set<Rule> -> seq<Rule>)
    requires Enumerates(iterate) && TagOf(o) !in types
    ensures RenderTop(types, o, iterate) == Err(UnknownType(TagOf(o)))
    ensures RenderCall(types, o, iterate) == Err(UnknownType(TagOf(o)))
  {
  }

  /** A part whose type has no handler makes the whole rule fail, wherever it sits. */
  lemma UnregisteredPartIsRefused(iterate: set<Rule> -> seq<Rule>)
    requires Enumerates(iterate)
    ensures RenderTop(DefaultTypes() - {StringType}, RuleObj(Match(Star, String("a"))), iterate)
            == Err(UnknownType(StringType))
  {
    var types := DefaultTypes() - {StringType};
    var items := [Nested(AtomObj(Star)), Chunk("="), Nested(AtomObj(String("a")))];
    assert items[1..][1..] == [Nested(AtomObj(String("a")))];
    assert RenderCall(types, AtomObj(String("a")), iterate) == Err(UnknownType(StringType));
  }

  class Formatter {
    var types: map<Tag, Handler>

    /** An empty registry. */
    constructor()
      ensures types == map[]
    {
      types := map[];
    }

    /** `add` (and the `handler` decorator, which calls it). */
    method Add(tag: Tag, h: Handler)
      modifies this
      ensures types == old(types)[tag := h]
    {
      types := types[tag := h];
    }

    /**
     * `format`: the text of `_format`'s walk over a stack of generators. Each
     * step takes the next item of the top generator: text is printed, a part is
     * looked up and either printed (bare text) or pushed; a finished generator
     * is popped.
     */
    method Format(o: Obj, iterate: set<Rule> -> seq<Rule>) returns (r: Result<string, FormatError>)
      requires Enumerates(iterate)
      ensures r == RenderTop(types, o, iterate)
    {
      var tag := TagOf(o);
      if tag !in types {
        return Err(UnknownType(tag));
      }
      var g := Apply(types[tag], o, iterate);
      if g.Err? {
        return Err(g.error);
      }
      if g.value.Bare? {
        return Err(NotIterable);
      }
      var stack := [g.value.items];
      ghost var bounds := [ObjHeight(o)];
      var out := "";
      assert stack[..0] == [] && bounds[..0] == [];
      EmptyTail(RenderItems(types, ObjHeight(o), g.value.items, iterate));
      while stack != []
        invariant FramesBelow(stack, bounds)
        invariant Append(out, Pending(types, stack, bounds, iterate)) == RenderTop(types, o, iterate)
        decreases StackWork(types, stack, bounds, iterate)
      {
        var n := |stack| - 1;
        var top := stack[n];
        if top == [] {
          PopFrame(types, stack, bounds, iterate);
          stack, bounds := stack[..n], bounds[..n];
        } else {
          var next := stack[..n] + [top[1..]];
          SplitTop(types, stack, bounds, iterate);
          match top[0]
          case Chunk(t) => {
            AppendChunk(out, t, Pending(types, next, bounds, iterate));
            stack := next;
            out := out + t;
          }
          case Nested(p) => {
            var ptag := TagOf(p);
            if ptag !in types {
              return Err(UnknownType(ptag));
            }
            var pg := Apply(types[ptag], p, iterate);
            if pg.Err? {
              return Err(pg.error);
            }
            match pg.value
            case Bare(t) => {
              AppendChunk(out, t, Pending(types, next, bounds, iterate));
              stack := next;
              out := out + t;
            }
            case Items(items) => {
              PushFrame(types, next, bounds, items, ObjHeight(p), iterate);
              stack := next + [items];
              bounds := bounds + [ObjHeight(p)];
            }
          }
        }
      }
      EmptyTail(Ok(out));
      return Ok(out);
    }
  }

  /** The module's `formatter`, with the ten handlers its declarations register. */
  method DefaultFormatter() returns (f: Formatter)
    ensures fresh(f) && f.types == DefaultTypes()
  {
    f := new Formatter();
    f.Add(RegExpType, RegexpFormat);
    f.Add(StringType, StringFormat);
    f.Add(IPType, IpFormat);
    f.Add(StarType, StarFormat);
    f.Add(FuzzyType, FuzzyFormat);
    f.Add(NonMatchType, NonMatchFormat);
    f.Add(MatchType, MatchFormat);
    f.Add(AndType, AndFormat);
    f.Add(OrType, OrFormat);
    f.Add(NoType, NoFormat);
  }

  /**
   * The module-level `format`: every rule and every atom but `*` comes out as its
   * printed form; `*` on its own cannot start the walk.
   */
  method FormatObject(o: Obj, iterate: set<Rule> -> seq<Rule>) returns (r: Result<string, FormatError>)
    requires Enumerates(iterate)
    ensures o.RuleObj? ==> r == Ok(RuleText(o.rule, iterate))
    ensures o.AtomObj? && !o.atom.Star? ==> r == Ok(AtomText(o.atom))
    ensures o == AtomObj(Star) ==> r == Err(NotIterable)
  {
    var f := DefaultFormatter();
    r := f.Format(o, iterate);
    match o
    case AtomObj(a) => DefaultRendersAtom(a, iterate);
    case RuleObj(x) => {
      DefaultRendersRule(x, iterate);
      assert RenderTop(DefaultTypes(), o, iterate) == RenderCall(DefaultTypes(), o, iterate);
    }
  }
}
