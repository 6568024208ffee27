/**
 The least-recently-used cache (source/utils/lru_cache.hpp): a list of keys in
 order of use and a table that remembers, for each key, its value and its
 position in the list.  Both must stay in step, and together they must behave
 as one bounded list of keys, most recently used first.
 */
module LruCache {
  import opened Collections

  // ------------------------------------------------ the bounded recency list

  /** The keys, most recently used first, and the value of each. */
  datatype Recency<K, V> = Recency(order: seq<K>, values: map<K, V>)

  ghost predicate WellFormed<K(!new), V>(c: Recency<K, V>, capacity: nat) {
    && NoDuplicates(c.order)
    && Elements(c.order) == c.values.Keys
    && |c.order| <= capacity
  }

  function MovedToFront<K(==,!new)>(order: seq<K>, k: K): seq<K> {
    [k] + Without(order, {k})
  }

  function Looked<K(==,!new), V>(c: Recency<K, V>, k: K): Recency<K, V> {
    if k in c.values then c.(order := MovedToFront(c.order, k)) else c
  }

  function Evicted<K(==,!new), V>(c: Recency<K, V>): Recency<K, V>
    requires c.order != []
  {
    var last := |c.order| - 1;
    Recency(c.order[..last], c.values - {c.order[last]})
  }

  function Stored<K(==,!new), V>(c: Recency<K, V>, capacity: nat, k: K, v: V): Recency<K, V>
    requires capacity >= 1
  {
    if k in c.values then Recency(MovedToFront(c.order, k), c.values[k := v])
    else
      var room := if |c.order| == capacity then Evicted(c) else c;
      Recency([k] + room.order, room.values[k := v])
  }

  function Dropped<K(==,!new), V>(c: Recency<K, V>, k: K): Recency<K, V> {
    Recency(Without(c.order, {k}), c.values - {k})
  }

  // ------------------------------------------------------------ the object

  /** A table entry: the value and the list node that holds the key. */
  datatype Slot<V> = Slot(value: V, node: nat)

  /** The keys held by a chain of list nodes. */
  ghost function KeysAlong<K>(usage: seq<nat>, keyOf: map<nat, K>): (r: seq<K>)
    requires forall n :: n in usage ==> n in keyOf
    ensures |r| == |usage|
    ensures forall i :: 0 <= i < |r| ==> r[i] == keyOf[usage[i]]
  {
    seq(|usage|, i requires 0 <= i < |usage| => keyOf[usage[i]])
  }

  /**
   List nodes have an identity of their own, and a removed node is never used
   again.  Each stored position points at its own key, and each node is the
   position of some key.
   */
  ghost predicate Linked<K(!new), V>(usage: seq<nat>, keyOf: map<nat, K>, slots: map<K, Slot<V>>, made: nat) {
    && NoDuplicates(usage)
    && (forall n :: n in usage <==> n in keyOf)
    && (forall n :: n in keyOf ==> n < made && keyOf[n] in slots && slots[keyOf[n]].node == n)
    && (forall k :: k in slots ==> slots[k].node in keyOf && keyOf[slots[k].node] == k)
  }

  ghost function Values<K(!new), V>(slots: map<K, Slot<V>>): map<K, V> {
    map k | k in slots :: slots[k].value
  }

  class Cache<K(==,!new), V> {
    const capacity: nat
    var usage: seq<nat>
    var keyOf: map<nat, K>
    var slots: map<K, Slot<V>>
    var made: nat

    ghost predicate Valid()
      reads this
    {
      Linked(usage, keyOf, slots, made) && |usage| <= capacity
    }

    ghost function Contents(): (c: Recency<K, V>)
      reads this
      requires Valid()
    {
      Recency(KeysAlong(usage, keyOf), Values(slots))
    }

    constructor (capacity: nat)
      ensures Valid() && this.capacity == capacity
      ensures Contents() == Recency([], map[])
    {
      this.capacity := capacity;
      usage, keyOf, slots, made := [], map[], map[], 0;
    }

    method Has(k: K) returns (found: bool)
      requires Valid()
      ensures found <==> k in Contents().order
    {
      found := k in slots;
      LinkedLists(usage, keyOf, slots, made);
      assert k in slots.Keys <==> k in Elements(Contents().order);
    }

    method Get(k: K) returns (value: Option<V>)
      requires Valid()
      modifies this`usage
      ensures Valid() && Contents() == Looked(old(Contents()), k)
      ensures value == if k in old(Contents()).values then Some(old(Contents()).values[k]) else None
    {
      if k !in slots {
        return None;
      }
      Splice(k);
      value := Some(slots[k].value);
    }

    /** The key's node is moved to the front of the list. */
    method Splice(k: K)
      requires Valid() && k in slots
      modifies this`usage
      ensures Valid()
      ensures Contents() == old(Contents()).(order := MovedToFront(old(Contents()).order, k))
    {
      SpliceLinked(usage, keyOf, slots, made, k);
      usage := [slots[k].node] + Without(usage, {slots[k].node});
    }

    method Put(k: K, v: V)
      requires Valid() && capacity >= 1
      modifies this
      ensures Valid() && Contents() == Stored(old(Contents()), capacity, k, v)
    {
      if k in slots {
        SetValue(k, v);
        Splice(k);
      } else {
        LinkedLists(usage, keyOf, slots, made);
        if |slots| == capacity {
          PopBack();
        }
        PushFront(k, v);
      }
    }

    method SetValue(k: K, v: V)
      requires Valid() && k in slots
      modifies this`slots
      ensures Valid() && slots.Keys == old(slots.Keys)
      ensures Contents() == old(Contents()).(values := old(Contents()).values[k := v])
    {
      slots := slots[k := Slot(v, slots[k].node)];
    }

    method PopBack()
      requires Valid() && usage != []
      modifies this`usage, this`keyOf, this`slots
      ensures Valid() && |usage| == old(|usage|) - 1
      ensures Contents() == Evicted(old(Contents()))
      ensures slots.Keys <= old(slots.Keys)
    {
      var n := usage[|usage| - 1];
      PopLinked(usage, keyOf, slots, made);
      slots := slots - {keyOf[n]};
      keyOf := keyOf - {n};
      usage := usage[..|usage| - 1];
    }

    method PushFront(k: K, v: V)
      requires Valid() && |usage| < capacity && k !in slots
      modifies this
      ensures Valid()
      ensures Contents() == Recency([k] + old(Contents()).order, old(Contents()).values[k := v])
    {
      PushLinked(usage, keyOf, slots, made, k, v);
      usage := [made] + usage;
      keyOf := keyOf[made := k];
      slots := slots[k := Slot(v, made)];
      made := made + 1;
    }

    method Erase(k: K)
      requires Valid()
      modifies this`usage, this`keyOf, this`slots
      ensures Valid() && Contents() == Dropped(old(Contents()), k)
    {
      if k in slots {
        var n := slots[k].node;
        EraseLinked(usage, keyOf, slots, made, k);
        usage := Without(usage, {n});
        keyOf := keyOf - {n};
        slots := slots - {k};
      } else {
        EraseUnlisted(usage, keyOf, slots, made, k);
      }
    }
  }

  lemma {:induction false} KeysWithout<K(!new)>(usage: seq<nat>, keyOf: map<nat, K>, n: nat)
    requires forall m :: m in usage ==> m in keyOf
    requires n in keyOf
    requires forall m :: m in usage && keyOf[m] == keyOf[n] ==> m == n
    ensures KeysAlong(Without(usage, {n}), keyOf) == Without(KeysAlong(usage, keyOf), {keyOf[n]})
  {
    if usage != [] {
      var head, rest := usage[0], usage[1..];
      assert head in usage;
      assert forall m :: m in rest ==> m in usage;
      KeysWithout(rest, keyOf, n);
      FrontKey(rest, keyOf, head);
      assert usage == [head] + rest;
      FrontKept(KeysAlong(rest, keyOf), keyOf[head], keyOf[n]);
      if head != n {
        FrontKey(Without(rest, {n}), keyOf, head);
      }
    }
  }

  lemma FrontKept<T(!new)>(s: seq<T>, head: T, drop: T)
    ensures Without([head] + s, {drop}) == (if head == drop then [] else [head]) + Without(s, {drop})
  {
    assert ([head] + s)[1..] == s;
  }

  /** The list and the table hold the same keys, each once. */
  lemma LinkedLists<K(!new), V>(usage: seq<nat>, keyOf: map<nat, K>, slots: map<K, Slot<V>>, made: nat)
    requires Linked(usage, keyOf, slots, made)
    ensures NoDuplicates(KeysAlong(usage, keyOf))
    ensures Elements(KeysAlong(usage, keyOf)) == slots.Keys
    ensures |slots| == |usage|
  {
    var order := KeysAlong(usage, keyOf);
    forall k | k in slots ensures k in order {
      var i :| 0 <= i < |usage| && usage[i] == slots[k].node;
      assert order[i] == k;
    }
    forall i, j | 0 <= i < j < |order| ensures order[i] != order[j] {
      assert usage[i] in usage && usage[j] in usage;
    }
    ElementsCount(order);
    assert |slots| == |slots.Keys|;
  }

  lemma SpliceLinked<K(!new), V>(usage: seq<nat>, keyOf: map<nat, K>, slots: map<K, Slot<V>>, made: nat, k: K)
    requires Linked(usage, keyOf, slots, made) && k in slots
    ensures var n := slots[k].node;
            var moved := [n] + Without(usage, {n});
            && |moved| <= |usage|
            && Linked(moved, keyOf, slots, made)
            && KeysAlong(moved, keyOf) == MovedToFront(KeysAlong(usage, keyOf), k)
  {
    var n := slots[k].node;
    KeyWithoutNode(usage, keyOf, slots, made, k);
    MoveNode(usage, n);
    FrontKey(Without(usage, {n}), keyOf, n);
  }

  lemma MoveNode(usage: seq<nat>, n: nat)
    requires NoDuplicates(usage) && n in usage
    ensures var moved := [n] + Without(usage, {n});
            && NoDuplicates(moved) && |moved| <= |usage|
            && forall m :: m in moved <==> m in usage
  {
    WithoutKeepsNoDuplicates(usage, {n});
    WithoutShrinks(usage, {n}, n);
  }

  lemma FrontKey<K>(usage: seq<nat>, keyOf: map<nat, K>, n: nat)
    requires n in keyOf && forall m :: m in usage ==> m in keyOf
    ensures KeysAlong([n] + usage, keyOf) == [keyOf[n]] + KeysAlong(usage, keyOf)
  {
  }

  lemma KeyWithoutNode<K(!new), V>(usage: seq<nat>, keyOf: map<nat, K>, slots: map<K, Slot<V>>, made: nat, k: K)
    requires Linked(usage, keyOf, slots, made) && k in slots
    ensures KeysAlong(Without(usage, {slots[k].node}), keyOf) == Without(KeysAlong(usage, keyOf), {k})
  {
    KeysWithout(usage, keyOf, slots[k].node);
  }

  lemma PopLinked<K(!new), V>(usage: seq<nat>, keyOf: map<nat, K>, slots: map<K, Slot<V>>, made: nat)
    requires Linked(usage, keyOf, slots, made) && usage != []
    ensures var last := |usage| - 1;
            var n := usage[last];
            var c := Evicted(Recency(KeysAlong(usage, keyOf), Values(slots)));
            && Linked(usage[..last], keyOf - {n}, slots - {keyOf[n]}, made)
            && KeysAlong(usage[..last], keyOf - {n}) == c.order
            && Values(slots - {keyOf[n]}) == c.values
  {
    var last := |usage| - 1;
    var n := usage[last];
    LastNode(usage);
    UnlinkNode(usage, keyOf, slots, made, n, usage[..last]);
    SameKeys(usage[..last], keyOf, n);
  }

  lemma LastNode(usage: seq<nat>)
    requires usage != [] && NoDuplicates(usage)
    ensures var last := |usage| - 1;
            NoDuplicates(usage[..last]) && forall m :: m in usage[..last] <==> m in usage && m != usage[last]
  {
  }

  /** A node leaves together with its key and the key's slot. */
  lemma UnlinkNode<K(!new), V>(usage: seq<nat>, keyOf: map<nat, K>, slots: map<K, Slot<V>>, made: nat, n: nat, rest: seq<nat>)
    requires Linked(usage, keyOf, slots, made) && n in usage
    requires NoDuplicates(rest) && forall m :: m in rest <==> m in usage && m != n
    ensures Linked(rest, keyOf - {n}, slots - {keyOf[n]}, made)
  {
    var fewer, left := keyOf - {n}, slots - {keyOf[n]};
    forall m | m in fewer ensures m < made && fewer[m] in left && left[fewer[m]].node == m {
      assert m in keyOf;
    }
  }

  lemma PushLinked<K(!new), V>(usage: seq<nat>, keyOf: map<nat, K>, slots: map<K, Slot<V>>, made: nat, k: K, v: V)
    requires Linked(usage, keyOf, slots, made) && k !in slots
    ensures Linked([made] + usage, keyOf[made := k], slots[k := Slot(v, made)], made + 1)
    ensures KeysAlong([made] + usage, keyOf[made := k]) == [k] + KeysAlong(usage, keyOf)
    ensures Values(slots[k := Slot(v, made)]) == Values(slots)[k := v]
  {
    var pushed := [made] + usage;
    assert made !in keyOf;
    assert made !in usage;
    forall i, j | 0 <= i < j < |pushed| ensures pushed[i] != pushed[j] {
      assert pushed[j] == usage[j - 1];
      assert pushed[j] in usage;
    }
    var keys := keyOf[made := k];
    forall i | 0 <= i < |pushed| ensures pushed[i] in keys && keys[pushed[i]] == ([k] + KeysAlong(usage, keyOf))[i] {
      if i > 0 {
        assert pushed[i] == usage[i - 1];
        assert pushed[i] in usage;
      }
    }
  }

  lemma EraseLinked<K(!new), V>(usage: seq<nat>, keyOf: map<nat, K>, slots: map<K, Slot<V>>, made: nat, k: K)
    requires Linked(usage, keyOf, slots, made) && k in slots
    ensures var n := slots[k].node;
            var rest := Without(usage, {n});
            && |rest| <= |usage|
            && Linked(rest, keyOf - {n}, slots - {k}, made)
            && KeysAlong(rest, keyOf - {n}) == Without(KeysAlong(usage, keyOf), {k})
            && Values(slots - {k}) == Values(slots) - {k}
  {
    var n := slots[k].node;
    DropNode(usage, keyOf, slots, made, n);
    KeyWithoutNode(usage, keyOf, slots, made, k);
    SameKeys(Without(usage, {n}), keyOf, n);
  }

  lemma DropNode<K(!new), V>(usage: seq<nat>, keyOf: map<nat, K>, slots: map<K, Slot<V>>, made: nat, n: nat)
    requires Linked(usage, keyOf, slots, made) && n in usage
    ensures Linked(Without(usage, {n}), keyOf - {n}, slots - {keyOf[n]}, made)
  {
    WithoutKeepsNoDuplicates(usage, {n});
    UnlinkNode(usage, keyOf, slots, made, n, Without(usage, {n}));
  }

  lemma EraseUnlisted<K(!new), V>(usage: seq<nat>, keyOf: map<nat, K>, slots: map<K, Slot<V>>, made: nat, k: K)
    requires Linked(usage, keyOf, slots, made) && k !in slots
    ensures Without(KeysAlong(usage, keyOf), {k}) == KeysAlong(usage, keyOf)
    ensures Values(slots) - {k} == Values(slots)
  {
    var order := KeysAlong(usage, keyOf);
    assert forall x :: x in order ==> x in slots;
    WithoutNothing(order, {k});
  }

  lemma SameKeys<K>(usage: seq<nat>, keyOf: map<nat, K>, n: nat)
    requires n !in usage && forall m :: m in usage ==> m in keyOf
    ensures KeysAlong(usage, keyOf - {n}) == KeysAlong(usage, keyOf)
  {
  }

  lemma {:induction false} ElementsCount<T(!new)>(s: seq<T>)
    requires NoDuplicates(s)
    ensures |Elements(s)| == |s|
  {
    if s != [] {
      ElementsCount(s[1..]);
      assert Elements(s) == {s[0]} + Elements(s[1..]);
    }
  }

  /** A valid object holds a well-formed bounded recency list. */
  lemma ValidIsWellFormed<K(!new), V>(c: Cache<K, V>)
    requires c.Valid()
    ensures WellFormed(c.Contents(), c.capacity)
  {
    LinkedLists(c.usage, c.keyOf, c.slots, c.made);
  }

  // ------------------------------------------------------- runs of operations

  datatype Op<K, V> = Has(key: K) | Get(key: K) | Put(key: K, value: V) | Erase(key: K)

  function Apply<K(==,!new), V>(c: Recency<K, V>, capacity: nat, op: Op<K, V>): Recency<K, V>
    requires capacity >= 1
  {
    match op
    case Has(_) => c
    case Get(k) => Looked(c, k)
    case Put(k, v) => Stored(c, capacity, k, v)
    case Erase(k) => Dropped(c, k)
  }

  function Run<K(==,!new), V>(capacity: nat, ops: seq<Op<K, V>>): Recency<K, V>
    requires capacity >= 1
  {
    if ops == [] then Recency([], map[])
    else Apply(Run(capacity, ops[..|ops| - 1]), capacity, ops[|ops| - 1])
  }

  lemma ApplyWellFormed<K(!new), V>(c: Recency<K, V>, capacity: nat, op: Op<K, V>)
    requires capacity >= 1 && WellFormed(c, capacity)
    ensures WellFormed(Apply(c, capacity, op), capacity)
  {
    WithoutKeepsNoDuplicates(c.order, {op.key});
    if op.key in c.order {
      WithoutShrinks(c.order, {op.key}, op.key);
    }
    assert op.key in c.values.Keys <==> op.key in Elements(c.order);
    if op.Put? && op.key !in c.values && |c.order| == capacity {
      EvictedWellFormed(c, capacity);
    }
    var d := Apply(c, capacity, op);
    assert Elements(d.order) == d.values.Keys;
  }

  lemma EvictedWellFormed<K(!new), V>(c: Recency<K, V>, capacity: nat)
    requires WellFormed(c, capacity) && c.order != []
    ensures WellFormed(Evicted(c), capacity)
  {
    var last := |c.order| - 1;
    assert forall k :: k in c.order ==> k == c.order[last] || k in c.order[..last];
    assert forall k :: k in c.order <==> k in Elements(c.order);
  }

  lemma {:induction false} RunWellFormed<K(!new), V>(capacity: nat, ops: seq<Op<K, V>>)
    requires capacity >= 1
    ensures WellFormed(Run(capacity, ops), capacity)
  {
    if ops != [] {
      var front := ops[..|ops| - 1];
      RunWellFormed(capacity, front);
      ApplyWellFormed(Run(capacity, front), capacity, ops[|ops| - 1]);
    }
  }

  // ------------------------------------------------ which keys are still there

  /** What a run did to the order of use: a put or a successful get touches a key. */
  datatype Use<K> = Touch(key: K) | Forget(key: K)

  function UseOf<K(==,!new), V>(c: Recency<K, V>, op: Op<K, V>): seq<Use<K>> {
    match op
    case Has(_) => []
    case Get(k) => if k in c.values then [Touch(k)] else []
    case Put(k, _) => [Touch(k)]
    case Erase(k) => [Forget(k)]
  }

  function Uses<K(==,!new), V>(capacity: nat, ops: seq<Op<K, V>>): seq<Use<K>>
    requires capacity >= 1
  {
    if ops == [] then []
    else
      var front := ops[..|ops| - 1];
      Uses(capacity, front) + UseOf(Run(capacity, front), ops[|ops| - 1])
  }

  /** The other keys touched since the last touch of `k` and not erased since. */
  function Newer<K(==,!new)>(uses: seq<Use<K>>, k: K): set<K> {
    if uses == [] then {}
    else
      var before := Newer(uses[..|uses| - 1], k);
      match uses[|uses| - 1]
      case Touch(j) => if j == k then {} else before + {j}
      case Forget(j) => before - {j}
  }

  /** `k` was touched, not erased since, and the newer keys never filled the capacity. */
  function Kept<K(==,!new)>(capacity: nat, uses: seq<Use<K>>, k: K): bool {
    if uses == [] then false
    else
      var before := Kept(capacity, uses[..|uses| - 1], k);
      match uses[|uses| - 1]
      case Touch(j) => j == k || (before && |Newer(uses, k)| < capacity)
      case Forget(j) => j != k && before
  }

  /** The keys listed before `k`. */
  function Ahead<K(==,!new)>(order: seq<K>, k: K): set<K> {
    if order == [] || order[0] == k then {} else {order[0]} + Ahead(order[1..], k)
  }

  lemma {:induction false} AheadWithout<K(!new)>(order: seq<K>, j: K, k: K)
    requires j != k
    ensures Ahead(Without(order, {j}), k) == Ahead(order, k) - {j}
  {
    if order != [] && order[0] != k {
      AheadWithout(order[1..], j, k);
      if order[0] != j {
        assert Without(order, {j})[1..] == Without(order[1..], {j});
      } else {
        assert Without(order, {j}) == Without(order[1..], {j});
      }
    }
  }

  lemma {:induction false} AheadOfMiddle<K(!new)>(order: seq<K>, k: K)
    requires order != [] && k in order[..|order| - 1]
    ensures Ahead(order[..|order| - 1], k) == Ahead(order, k)
  {
    if order[0] != k {
      assert order[1..][..|order| - 2] == order[..|order| - 1][1..];
      AheadOfMiddle(order[1..], k);
    }
  }

  /** The number of keys ahead is the position in the list. */
  lemma {:induction false} AheadCount<K(!new)>(order: seq<K>, i: nat)
    requires NoDuplicates(order) && i < |order|
    ensures |Ahead(order, order[i])| == i
    ensures forall x :: x in Ahead(order, order[i]) ==> x in order[..i]
  {
    if i > 0 {
      AheadCount(order[1..], i - 1);
      assert order[1..][..i - 1] == order[..i][1..];
      assert order[0] !in order[1..];
    }
  }

  /** Cache and history agree: a key is listed exactly if kept, behind exactly the newer ones. */
  ghost predicate Agrees<K(!new)>(order: seq<K>, capacity: nat, uses: seq<Use<K>>, k: K) {
    && (k in order <==> Kept(capacity, uses, k))
    && (k in order ==> Ahead(order, k) == Newer(uses, k))
  }

  lemma TouchListed<K(!new), V>(c: Recency<K, V>, capacity: nat, uses: seq<Use<K>>, j: K, k: K)
    requires capacity >= 1 && WellFormed(c, capacity) && j in c.order
    requires Agrees(c.order, capacity, uses, k)
    ensures Agrees(MovedToFront(c.order, j), capacity, uses + [Touch(j)], k)
  {
    var after := MovedToFront(c.order, j);
    assert (uses + [Touch(j)])[..|uses|] == uses;
    if j != k && k in c.order {
      AheadWithout(c.order, j, k);
      assert after[1..] == Without(c.order, {j});
      assert Ahead(after, k) == Newer(uses + [Touch(j)], k);
      WithoutKeepsNoDuplicates(c.order, {j});
      WithoutShrinks(c.order, {j}, j);
      assert NoDuplicates(after);
      var i :| 0 <= i < |after| && after[i] == k;
      AheadCount(after, i);
    }
  }

  lemma TouchUnlisted<K(!new), V>(c: Recency<K, V>, capacity: nat, uses: seq<Use<K>>, j: K, k: K)
    requires capacity >= 1 && WellFormed(c, capacity) && j !in c.order
    requires Agrees(c.order, capacity, uses, k)
    ensures var kept := if |c.order| == capacity then c.order[..capacity - 1] else c.order;
            Agrees([j] + kept, capacity, uses + [Touch(j)], k)
  {
    var kept := if |c.order| == capacity then c.order[..capacity - 1] else c.order;
    NewerAfterTouch(capacity, uses, j, k);
    if j != k {
      PushEffect(c.order, kept, capacity, j, k);
    }
  }

  lemma PushEffect<K(!new)>(order: seq<K>, kept: seq<K>, capacity: nat, j: K, k: K)
    requires NoDuplicates(order) && 1 <= capacity && |order| <= capacity
    requires kept == if |order| == capacity then order[..capacity - 1] else order
    requires j !in order && j != k
    ensures k in [j] + kept <==> k in order && |Ahead(order, k) + {j}| < capacity
    ensures k in [j] + kept ==> Ahead([j] + kept, k) == Ahead(order, k) + {j}
  {
    if k in order {
      var i :| 0 <= i < |order| && order[i] == k;
      CountWithPushed(order, j, i);
      if i < |kept| {
        KeptInPlace(order, kept, j, i);
      } else {
        FellOff(order, kept, i);
      }
    }
  }

  lemma CountWithPushed<K(!new)>(order: seq<K>, j: K, i: nat)
    requires NoDuplicates(order) && i < |order| && j !in order
    ensures |Ahead(order, order[i]) + {j}| == i + 1
  {
    AheadCount(order, i);
    OneMore(Ahead(order, order[i]), order[..i], j);
  }

  lemma FellOff<K(!new)>(order: seq<K>, kept: seq<K>, i: nat)
    requires NoDuplicates(order) && i < |order| && kept == order[..i]
    ensures order[i] !in kept
  {
  }

  lemma NewerAfterTouch<K(!new)>(capacity: nat, uses: seq<Use<K>>, j: K, k: K)
    requires capacity >= 1
    ensures Newer(uses + [Touch(j)], k) == if j == k then {} else Newer(uses, k) + {j}
    ensures Kept(capacity, uses + [Touch(j)], k) <==>
              j == k || (Kept(capacity, uses, k) && |Newer(uses, k) + {j}| < capacity)
  {
    assert (uses + [Touch(j)])[..|uses|] == uses;
  }

  lemma OneMore<K(!new)>(ahead: set<K>, listed: seq<K>, j: K)
    requires j !in listed && forall x :: x in ahead ==> x in listed
    ensures |ahead + {j}| == |ahead| + 1
  {
  }

  /** Pushing a new key in front moves a key one place back, unless it falls off the end. */
  lemma KeptInPlace<K(!new)>(order: seq<K>, kept: seq<K>, j: K, i: nat)
    requires kept == order || (order != [] && kept == order[..|order| - 1])
    requires i < |kept| && j !in order
    ensures order[i] in [j] + kept
    ensures Ahead([j] + kept, order[i]) == {j} + Ahead(order, order[i])
  {
    var k := order[i];
    assert kept[i] == k;
    if kept != order {
      AheadOfMiddle(order, k);
    }
    AheadPush(kept, j, k);
  }

  lemma AheadPush<K(!new)>(order: seq<K>, j: K, k: K)
    requires j != k
    ensures Ahead([j] + order, k) == {j} + Ahead(order, k)
  {
    assert ([j] + order)[1..] == order;
  }

  lemma ForgetAgrees<K(!new), V>(c: Recency<K, V>, capacity: nat, uses: seq<Use<K>>, j: K, k: K)
    requires Agrees(c.order, capacity, uses, k)
    ensures Agrees(Without(c.order, {j}), capacity, uses + [Forget(j)], k)
  {
    assert (uses + [Forget(j)])[..|uses|] == uses;
    if j != k {
      AheadWithout(c.order, j, k);
    }
  }

  lemma {:induction false} RunAgrees<K(!new), V>(capacity: nat, ops: seq<Op<K, V>>, k: K)
    requires capacity >= 1
    ensures Agrees(Run(capacity, ops).order, capacity, Uses(capacity, ops), k)
  {
    if ops != [] {
      var front, op := ops[..|ops| - 1], ops[|ops| - 1];
      var c, uses := Run(capacity, front), Uses(capacity, front);
      RunWellFormed(capacity, front);
      RunAgrees(capacity, front, k);
      assert op.key in c.values.Keys <==> op.key in Elements(c.order);
      if op.Erase? {
        ForgetAgrees(c, capacity, uses, op.key, k);
      } else if op.Put? || (op.Get? && op.key in c.values) {
        if op.key in c.values {
          TouchListed(c, capacity, uses, op.key, k);
        } else {
          TouchUnlisted(c, capacity, uses, op.key, k);
        }
      } else {
        assert Uses(capacity, ops) == uses;
      }
    }
  }

  /** Exactly the kept keys are in the cache after any run of operations. */
  lemma {:induction false} PresentExactlyWhenKept<K(!new), V>(capacity: nat, ops: seq<Op<K, V>>, k: K)
    requires capacity >= 1
    ensures k in Run(capacity, ops).values <==> Kept(capacity, Uses(capacity, ops), k)
  {
    RunAgrees(capacity, ops, k);
    RunWellFormed(capacity, ops);
    var c := Run(capacity, ops);
    assert k in c.values.Keys <==> k in Elements(c.order);
  }

  // --------------------------------- the same, as a count over the raw history

  /** `uses[i]` touches `k`, and nothing after it names `k`. */
  ghost predicate LastNamedBy<K(!new)>(uses: seq<Use<K>>, k: K, i: nat) {
    && i < |uses| && uses[i] == Touch(k)
    && forall m :: i < m < |uses| ==> uses[m].key != k
  }

  /** The distinct keys touched by `uses`, erased or not. */
  function TouchedKeys<K(==,!new)>(uses: seq<Use<K>>): set<K> {
    set m | 0 <= m < |uses| && uses[m].Touch? :: uses[m].key
  }

  lemma TouchedKeysGrow<K(!new)>(uses: seq<Use<K>>, u: Use<K>)
    ensures TouchedKeys(uses + [u]) == TouchedKeys(uses) + if u.Touch? then {u.key} else {}
    ensures |TouchedKeys(uses)| <= |TouchedKeys(uses + [u])|
  {
    var more := uses + [u];
    assert forall m :: 0 <= m < |uses| ==> more[m] == uses[m];
    assert more[|uses|] == u;
    SubsetOfSameSize(TouchedKeys(uses), TouchedKeys(more));
  }

  lemma {:induction false} NewerIsWithinTouched<K(!new)>(capacity: nat, uses: seq<Use<K>>, k: K, i: nat)
    requires capacity >= 1 && LastNamedBy(uses, k, i)
    ensures Newer(uses, k) <= TouchedKeys(uses[i + 1..])
    ensures |TouchedKeys(uses[i + 1..])| < capacity ==> Kept(capacity, uses, k)
    decreases |uses|
  {
    var last := |uses| - 1;
    if i < last {
      var front := uses[..last];
      NewerIsWithinTouched(capacity, front, k, i);
      TailGrows(uses, front, i);
      TouchedKeysGrow(front[i + 1..], uses[last]);
      SubsetOfSameSize(Newer(uses, k), TouchedKeys(uses[i + 1..]));
    }
  }

  lemma {:induction false} NewerIsTouched<K(!new)>(uses: seq<Use<K>>, k: K, i: nat)
    requires LastNamedBy(uses, k, i)
    requires forall m :: 0 <= m < |uses| ==> uses[m].Touch?
    ensures Newer(uses, k) == TouchedKeys(uses[i + 1..])
    decreases |uses|
  {
    var last := |uses| - 1;
    if i < last {
      var front := uses[..last];
      NewerIsTouched(front, k, i);
      TailGrows(uses, front, i);
      TouchedKeysGrow(front[i + 1..], uses[last]);
    }
  }

  lemma TailGrows<T>(s: seq<T>, front: seq<T>, i: nat)
    requires i < |s| - 1 && front == s[..|s| - 1]
    ensures s[i + 1..] == front[i + 1..] + [s[|s| - 1]]
  {
  }

  /** A key survives while fewer than `capacity` distinct other keys were touched since its last touch. */
  lemma {:induction false} SurvivesWhileFewAreTouched<K(!new), V>(capacity: nat, ops: seq<Op<K, V>>, k: K, i: nat)
    requires capacity >= 1
    requires LastNamedBy(Uses(capacity, ops), k, i)
    requires |TouchedKeys(Uses(capacity, ops)[i + 1..])| < capacity
    ensures k in Run(capacity, ops).values
  {
    NewerIsWithinTouched(capacity, Uses(capacity, ops), k, i);
    PresentExactlyWhenKept(capacity, ops, k);
  }

  /** If nothing was ever erased, that count decides. */
  lemma {:induction false} WithoutEraseTheCountDecides<K(!new), V>(capacity: nat, ops: seq<Op<K, V>>, k: K, i: nat)
    requires capacity >= 1
    requires forall m :: 0 <= m < |ops| ==> !ops[m].Erase?
    requires LastNamedBy(Uses(capacity, ops), k, i)
    ensures k in Run(capacity, ops).values <==> |TouchedKeys(Uses(capacity, ops)[i + 1..])| < capacity
  {
    var uses, c := Uses(capacity, ops), Run(capacity, ops);
    OnlyTouches(capacity, ops);
    NewerIsWithinTouched(capacity, uses, k, i);
    NewerIsTouched(uses, k, i);
    PresentExactlyWhenKept(capacity, ops, k);
    RunAgrees(capacity, ops, k);
    RunWellFormed(capacity, ops);
    if k in c.values {
      assert k in Elements(c.order);
      var p :| 0 <= p < |c.order| && c.order[p] == k;
      AheadCount(c.order, p);
    }
  }

  lemma {:induction false} OnlyTouches<K(!new), V>(capacity: nat, ops: seq<Op<K, V>>)
    requires capacity >= 1
    requires forall m :: 0 <= m < |ops| ==> !ops[m].Erase?
    ensures forall m :: 0 <= m < |Uses(capacity, ops)| ==> Uses(capacity, ops)[m].Touch?
  {
    if ops != [] {
      OnlyTouches(capacity, ops[..|ops| - 1]);
    }
  }

  // ---------------------------------------------------------------- values

  /** The value given by the last put of `k`. */
  function LastPut<K(==,!new), V>(ops: seq<Op<K, V>>, k: K): Option<V> {
    if ops == [] then None
    else
      var op := ops[|ops| - 1];
      if op.Put? && op.key == k then Some(op.value) else LastPut(ops[..|ops| - 1], k)
  }

  /** A key that is present has the value it was last put with. */
  lemma {:induction false} PresentValueIsTheLastPut<K(!new), V>(capacity: nat, ops: seq<Op<K, V>>, k: K)
    requires capacity >= 1
    requires k in Run(capacity, ops).values
    ensures LastPut(ops, k) == Some(Run(capacity, ops).values[k])
  {
    var front, op := ops[..|ops| - 1], ops[|ops| - 1];
    if !(op.Put? && op.key == k) {
      PresentValueIsTheLastPut(capacity, front, k);
    }
  }
}
