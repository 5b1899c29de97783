/**
 * Two helpers of the configuration loader (abusehelper/core/config.py):
 * `flatten`, which turns the nested lists, iterables and factories a config
 * module returns into one flat run of bot configurations, and
 * `HashableFrozenDict`, the read-only mapping whose hash is computed once
 * and remembered.
 */
module Config {
  import opened Wrappers

  // ---------------------------------------------------------------------
  // flatten

  /**
   * What a configuration may hold: a plain value, something iterable (its
   * items in iteration order), or a callable (what calling it returns).
   */
  datatype Obj<T> = Leaf(value: T) | Iterable(items: seq<Obj<T>>) | Callable(result: Obj<T>)

  /** `flatten(obj)`: callables are called, iterables walked in order, anything else yielded as it is. */
  function Flatten<T>(obj: Obj<T>): seq<T>
    decreases obj, 1
  {
    match obj
    case Callable(result) => Flatten(result)
    case Iterable(items) => FlattenAll(items)
    case Leaf(value) => [value]
  }

  /** The loop over an iterable's items: each item flattened, one after the other. */
  function FlattenAll<T>(items: seq<Obj<T>>): seq<T>
    decreases items, 0
  {
    if items == [] then [] else Flatten(items[0]) + FlattenAll(items[1..])
  }

  /** The plain values inside `obj`, counted. */
  function LeafCount<T>(obj: Obj<T>): nat
    decreases obj, 1
  {
    match obj
    case Callable(result) => LeafCount(result)
    case Iterable(items) => LeafCountAll(items)
    case Leaf(_) => 1
  }

  function LeafCountAll<T>(items: seq<Obj<T>>): nat
    decreases items, 0
  {
    if items == [] then 0 else LeafCount(items[0]) + LeafCountAll(items[1..])
  }

  /** `x` is a plain value somewhere inside `obj`. */
  ghost predicate HasLeaf<T>(obj: Obj<T>, x: T)
    decreases obj, 1
  {
    match obj
    case Callable(result) => HasLeaf(result, x)
    case Iterable(items) => HasLeafAll(items, x)
    case Leaf(value) => value == x
  }

  ghost predicate HasLeafAll<T>(items: seq<Obj<T>>, x: T)
    decreases items, 0
  {
    exists i :: 0 <= i < |items| && HasLeaf(items[i], x)
  }

  /** Every plain value inside `obj` is yielded, once per occurrence, and nothing else. */
  lemma {:induction false} FlattenYieldsLeaves<T>(obj: Obj<T>)
    ensures |Flatten(obj)| == LeafCount(obj)
    ensures forall x :: x in Flatten(obj) <==> HasLeaf(obj, x)
    decreases obj, 1
  {
    match obj
    case Callable(result) => FlattenYieldsLeaves(result);
    case Iterable(items) => FlattenAllYieldsLeaves(items);
    case Leaf(_) =>
  }

  lemma {:induction false} FlattenAllYieldsLeaves<T>(items: seq<Obj<T>>)
    ensures |FlattenAll(items)| == LeafCountAll(items)
    ensures forall x :: x in FlattenAll(items) <==> HasLeafAll(items, x)
    decreases items, 0
  {
    if items != [] {
      FlattenYieldsLeaves(items[0]);
      FlattenAllYieldsLeaves(items[1..]);
      forall x
        ensures HasLeafAll(items, x) <==> HasLeaf(items[0], x) || HasLeafAll(items[1..], x)
      {
        if HasLeafAll(items, x) {
          var i :| 0 <= i < |items| && HasLeaf(items[i], x);
          if i > 0 {
            assert items[1..][i - 1] == items[i];
          }
        }
        if HasLeafAll(items[1..], x) {
          var i :| 0 <= i < |items[1..]| && HasLeaf(items[1..][i], x);
          assert items[i + 1] == items[1..][i];
        }
      }
    }
  }

  /** Flattening the items of two iterables one after the other is flattening each. */
  lemma {:induction false} FlattenAllAppend<T>(a: seq<Obj<T>>, b: seq<Obj<T>>)
    ensures FlattenAll(a + b) == FlattenAll(a) + FlattenAll(b)
  {
    if a == [] {
      assert a + b == b;
    } else {
      assert (a + b)[0] == a[0] && (a + b)[1..] == a[1..] + b;
      FlattenAllAppend(a[1..], b);
    }
  }

  /** The items of a flat list of values. */
  function Leaves<T>(xs: seq<T>): (items: seq<Obj<T>>)
    ensures |items| == |xs|
    ensures forall i :: 0 <= i < |xs| ==> items[i] == Leaf(xs[i])
  {
    if xs == [] then [] else [Leaf(xs[0])] + Leaves(xs[1..])
  }

  /** Flattening is idempotent: a flattened configuration flattens to itself. */
  lemma {:induction false} FlattenFlat<T>(xs: seq<T>)
    ensures FlattenAll(Leaves(xs)) == xs
  {
    if xs != [] {
      FlattenFlat(xs[1..]);
      assert Leaves(xs)[1..] == Leaves(xs[1..]);
    }
  }

  /** The examples of `flatten`'s documentation: a flat list, and `flatten(list)`, where calling `list` gives `[]`. */
  lemma FlattenListExamples()
    ensures Flatten(Iterable([Leaf(1), Leaf(2)])) == [1, 2]
    ensures Flatten<int>(Callable(Iterable([]))) == []
  {
    var one: seq<Obj<int>> := [Leaf(1), Leaf(2)];
    assert FlattenAll(one) == [1] + FlattenAll([Leaf(2)]);
  }

  /** `flatten([[1, [2, 3]], 4])` gives `[1, 2, 3, 4]`. */
  lemma FlattenNestedExample()
    ensures Flatten(Iterable([Iterable([Leaf(1), Iterable([Leaf(2), Leaf(3)])]), Leaf(4)])) == [1, 2, 3, 4]
  {
    var inner: seq<Obj<int>> := [Leaf(2), Leaf(3)];
    assert FlattenAll(inner) == [2, 3] by {
      assert FlattenAll(inner) == [2] + FlattenAll([Leaf(3)]);
    }
    var mid: seq<Obj<int>> := [Leaf(1), Iterable(inner)];
    assert FlattenAll(mid) == [1, 2, 3] by {
      assert FlattenAll(mid) == [1] + FlattenAll([Iterable(inner)]);
      assert FlattenAll([Iterable(inner)]) == Flatten(Iterable(inner)) + FlattenAll([]);
    }
    var outer: seq<Obj<int>> := [Iterable(mid), Leaf(4)];
    assert FlattenAll(outer) == [1, 2, 3] + FlattenAll([Leaf(4)]);
  }

  /** `flatten([xrange(1, 3), xrange(3, 5)])` gives `[1, 2, 3, 4]`. */
  lemma FlattenRangesExample()
    ensures Flatten(Iterable([Iterable([Leaf(1), Leaf(2)]), Iterable([Leaf(3), Leaf(4)])])) == [1, 2, 3, 4]
  {
    var one: seq<Obj<int>> := [Leaf(1), Leaf(2)];
    assert FlattenAll(one) == [1] + FlattenAll([Leaf(2)]);
    var two: seq<Obj<int>> := [Leaf(3), Leaf(4)];
    assert FlattenAll(two) == [3] + FlattenAll([Leaf(4)]);
    var ranges: seq<Obj<int>> := [Iterable(one), Iterable(two)];
    assert FlattenAll(ranges) == [1, 2] + FlattenAll([Iterable(two)]);
  }

  // ---------------------------------------------------------------------
  // HashableFrozenDict

  /** An item as it is hashed: the value, or the `_HASHABLE` sentinel in place of an unhashable one. */
  datatype HashedValue<V> = Hashed(value: V) | Unhashable

  /** `_hashable_item` for the value of one key. */
  function HashedItem<V>(hashable: V -> bool, v: V): HashedValue<V>
  {
    if hashable(v) then Hashed(v) else Unhashable
  }

  /** `frozenset(map(_hashable_item, items))`. */
  function Items<K(==,!new), V(==,!new)>(contents: map<K, V>, hashable: V -> bool): (items: set<(K, HashedValue<V>)>)
    ensures forall k, h :: (k, h) in items <==> k in contents && h == HashedItem(hashable, contents[k])
  {
    set k | k in contents :: (k, HashedItem(hashable, contents[k]))
  }

  /**
   * The hash of a frozen dict: the hash of its type xor the hash of its items.
   * Hashes are 64-bit words; `hashItems` stands for Python's `hash` of a frozenset.
   */
  function HashOf<K(==,!new), V(==,!new)>(contents: map<K, V>, hashable: V -> bool, typeHash: bv64, hashItems: set<(K, HashedValue<V>)> -> bv64): bv64
  {
    typeHash ^ hashItems(Items(contents, hashable))
  }

  /** `KeyError` from `__getitem__`. */
  datatype KeyError<K> = KeyError(key: K)

  class HashableFrozenDict<K(==,!new), V(==,!new)> {
    /** `_dict`: never changed after construction. */
    const contents: map<K, V>
    /** `_hash`: `None` until the first `__hash__`. */
    var cache: Option<bv64>

    /** Which values Python's `hash` accepts, the hash of the type, and the hash of a frozenset of items. */
    const hashable: V -> bool
    const typeHash: bv64
    const hashItems: set<(K, HashedValue<V>)> -> bv64

    /** The cache, once filled, holds the hash of the contents. */
    ghost predicate Valid()
      reads this
    {
      cache.Some? ==> cache.value == HashOf(contents, hashable, typeHash, hashItems)
    }

    /** `HashableFrozenDict(mapping, **keys)`: the keyword arguments win over the mapping. */
    constructor(mapping: map<K, V>, keys: map<K, V>, hashable: V -> bool, typeHash: bv64, hashItems: set<(K, HashedValue<V>)> -> bv64)
      ensures Valid()
      ensures contents == mapping + keys && cache == None
      ensures this.hashable == hashable && this.typeHash == typeHash && this.hashItems == hashItems
    {
      contents := mapping + keys;
      cache := None;
      this.hashable := hashable;
      this.typeHash := typeHash;
      this.hashItems := hashItems;
    }

    /** `__hash__`: the cached hash, computed on the first call. */
    method Hash() returns (h: bv64)
      requires Valid()
      modifies this`cache
      ensures Valid()
      ensures h == HashOf(contents, hashable, typeHash, hashItems) && cache == Some(h)
      ensures old(cache).Some? ==> h == old(cache).value
    {
      if cache.Some? {
        return cache.value;
      }
      var items := set k | k in contents :: (k, HashedItem(hashable, contents[k]));
      h := typeHash ^ hashItems(items);
      cache := Some(h);
    }

    /** `__eq__`: the contents compared with the other mapping. */
    function Equals(other: map<K, V>): (r: bool)
      ensures r <==> (forall k :: k in contents <==> k in other) && (forall k :: k in contents ==> contents[k] == other[k])
    {
      contents == other
    }

    /** `__getitem__`. */
    function Get(key: K): (r: Result<V, KeyError<K>>)
      ensures r.Ok? <==> key in contents
      ensures r.Ok? ==> r.value == contents[key]
      ensures r.Err? ==> r.error == KeyError(key)
    {
      if key in contents then Ok(contents[key]) else Err(KeyError(key))
    }

    /** `__contains__`. */
    predicate Contains(key: K)
    {
      key in contents
    }

    /** `__len__`. */
    function Len(): (n: nat)
      ensures n == |Keys()|
    {
      |contents|
    }

    /** `__iter__`: the keys, in the wrapped dict's order, which is not modelled. */
    function Keys(): (ks: set<K>)
      ensures forall k :: k in ks <==> Contains(k)
    {
      contents.Keys
    }

    /** `__reduce__`: the type and the wrapped dict, from which pickle rebuilds the object. */
    function Reduce(): map<K, V>
    {
      contents
    }

    /** What unpickling does with `__reduce__`'s answer: an equal frozen dict with an empty cache. */
    method Rebuilt() returns (copy: HashableFrozenDict<K, V>)
      ensures fresh(copy) && copy.Valid() && copy.cache == None
      ensures copy.Equals(contents) && Equals(copy.contents)
      ensures copy.hashable == hashable && copy.typeHash == typeHash && copy.hashItems == hashItems
    {
      copy := new HashableFrozenDict(Reduce(), map[], hashable, typeHash, hashItems);
      assert Reduce() + map[] == contents;
    }
  }

  /**
   * Equal frozen dicts hash alike, whatever their caches hold: the hash/`==`
   * contract that lets them be dictionary keys and set members.
   */
  lemma EqualDictsHashAlike<K(!new), V(!new)>(a: HashableFrozenDict<K, V>, b: HashableFrozenDict<K, V>)
    requires a.Equals(b.contents)
    requires a.hashable == b.hashable && a.typeHash == b.typeHash && a.hashItems == b.hashItems
    ensures HashOf(a.contents, a.hashable, a.typeHash, a.hashItems) == HashOf(b.contents, b.hashable, b.typeHash, b.hashItems)
  {
  }

  /**
   * Unhashable values do not matter to the hash: two dicts with the same keys
   * whose values agree wherever either is hashable hash alike, so hashing never
   * fails on a value.
   */
  lemma UnhashableValuesIgnored<K(!new), V(!new)>(a: map<K, V>, b: map<K, V>, hashable: V -> bool, typeHash: bv64, hashItems: set<(K, HashedValue<V>)> -> bv64)
    requires a.Keys == b.Keys
    requires forall k :: k in a ==> (hashable(a[k]) || hashable(b[k]) ==> a[k] == b[k])
    ensures HashOf(a, hashable, typeHash, hashItems) == HashOf(b, hashable, typeHash, hashItems)
  {
    assert Items(a, hashable) == Items(b, hashable);
  }

  /** Xor with a fixed word is one to one, from either side. */
  lemma XorCancels(x: bv64, y: bv64, t: bv64)
    ensures x ^ t == y ^ t <==> x == y
    ensures t ^ x == t ^ y <==> x == y
  {
  }

  lemma XorKeepsApart(x: bv64, y: bv64, t: bv64)
    ensures x != y ==> x ^ t != y ^ t
  {
    XorCancels(x, y, t);
  }

  lemma XorMatchesExactly(t: bv64, x: bv64, y: bv64)
    ensures t ^ x == t ^ y <==> x == y
  {
    XorCancels(x, y, t);
  }

  /**
   * Mixing in the type's hash keeps types apart: the same items under two
   * different types never hash alike.
   */
  lemma TypeSeparatesHashes<K(!new), V(!new)>(a: map<K, V>, b: map<K, V>, hashable: V -> bool, typeA: bv64, typeB: bv64, hashItems: set<(K, HashedValue<V>)> -> bv64)
    ensures typeA != typeB ==> HashOf(a, hashable, typeA, hashItems) != HashOf(a, hashable, typeB, hashItems)
  {
    XorKeepsApart(typeA, typeB, hashItems(Items(a, hashable)));
  }

  /**
   * Two dicts of one type hash alike only when their item sets do (and the
   * converse is plain congruence).
   */
  lemma SameTypeHashesAlike<K(!new), V(!new)>(a: map<K, V>, b: map<K, V>, hashable: V -> bool, typeHash: bv64, hashItems: set<(K, HashedValue<V>)> -> bv64)
    ensures HashOf(a, hashable, typeHash, hashItems) == HashOf(b, hashable, typeHash, hashItems) ==>
      hashItems(Items(a, hashable)) == hashItems(Items(b, hashable))
  {
    XorMatchesExactly(typeHash, hashItems(Items(a, hashable)), hashItems(Items(b, hashable)));
  }
}
