/**
 * The LRU cache (lru/src/lib.rs): the recency list plus an index `refs`
 * from key to node, and a capacity fixed at 5 by `Lru::new`.
 *
 * `set` evicts the tail when the list is full and then always pushes a new
 * node and overwrites `refs[key]`; it never looks for an existing node of
 * the same key. A repeated `set` therefore leaves the older node in the list,
 * unindexed, and the index and the list are not in bijection. What does
 * hold is that every indexed key names a live node carrying that key, and
 * that no node ahead of it carries the same key.
 */
module Cache {
  import opened Wrappers
  import opened Values
  import opened LinkedList

  /** `LruConfig { capacity: 5 }` in `Lru::new`. */
  const DefaultCapacity: nat := 5

  /**
   * The state of an `Lru` as values: the index, the key and the value of
   * every node ever allocated (by id), and the live ids from head to tail.
   */
  datatype CacheView = CacheView(refs: map<string, nat>, keys: seq<string>, vals: seq<Value>, order: seq<nat>)

  const Empty := CacheView(map[], [], [], [])

  /** Every live id names an allocated node, and none is live twice. */
  ghost predicate WellFormed(c: CacheView)
  {
    |c.keys| == |c.vals| &&
    (forall i :: 0 <= i < |c.order| ==> c.order[i] < |c.keys|) &&
    Distinct(c.order)
  }

  /** Node `id` is the one the index holds for its key. */
  ghost predicate Indexed(c: CacheView, id: nat)
  {
    id < |c.keys| && c.keys[id] in c.refs && c.refs[c.keys[id]] == id
  }

  /** Every indexed key points to a live node that carries that key. */
  ghost predicate IndexSound(c: CacheView)
  {
    forall k :: k in c.refs ==> c.refs[k] in c.order && c.refs[k] < |c.keys| && c.keys[c.refs[k]] == k
  }

  /** No live node ahead of an indexed node carries the same key. */
  ghost predicate IndexNewest(c: CacheView)
    requires WellFormed(c)
  {
    forall i, j :: 0 <= i < j < |c.order| && Indexed(c, c.order[j]) ==> c.keys[c.order[i]] != c.keys[c.order[j]]
  }

  /** The invariant every `Lru` keeps, with the bound `len <= capacity`. */
  ghost predicate Inv(c: CacheView, capacity: nat)
  {
    WellFormed(c) && |c.order| <= capacity && IndexSound(c) && IndexNewest(c)
  }

  /** `pop_back` followed by `refs.remove` of the popped key (nothing on an empty list). */
  function Evict(c: CacheView): CacheView
    requires WellFormed(c)
  {
    if c.order == [] then c
    else
      var n := |c.order|;
      c.(order := c.order[..n - 1], refs := c.refs - {c.keys[c.order[n - 1]]})
  }

  /** `push_front` of a fresh node followed by `refs.insert`. */
  function Push(c: CacheView, key: string, value: Value): CacheView
  {
    var id := |c.keys|;
    CacheView(c.refs[key := id], c.keys + [key], c.vals + [value], [id] + c.order)
  }

  /** `Lru::set`: evict when `len == capacity`, then push and index. */
  function SetView(c: CacheView, key: string, value: Value, capacity: nat): CacheView
    requires WellFormed(c)
  {
    Push(if capacity == |c.order| then Evict(c) else c, key, value)
  }

  /** `Lru::get`: a miss changes nothing; a hit moves the node to the front and yields its value. */
  function GetView(c: CacheView, key: string): (Option<Value>, CacheView)
    requires WellFormed(c) && IndexSound(c)
  {
    if key !in c.refs then (None, c)
    else
      var id := c.refs[key];
      (Some(c.vals[id]), c.(order := MoveToFront(c.order, IndexOf(c.order, id))))
  }

  lemma {:induction false} EvictKeepsInv(c: CacheView, capacity: nat)
    requires Inv(c, capacity) && c.order != []
    ensures Inv(Evict(c), capacity - 1)
  {
    var c' := Evict(c);
    var n := |c.order|;
    var tk := c.keys[c.order[n - 1]];
    assert c'.order == c.order[..n - 1];
    forall k | k in c'.refs
      ensures c'.refs[k] in c'.order
    {
      var m := IndexOf(c.order, c.refs[k]);
      assert m != n - 1;
      assert c'.order[m] == c.refs[k];
    }
    forall i, j | 0 <= i < j < |c'.order|
      ensures c'.order[i] != c'.order[j]
    {
      assert c'.order[i] == c.order[i] && c'.order[j] == c.order[j];
    }
    forall i, j | 0 <= i < j < |c'.order| && Indexed(c', c'.order[j])
      ensures c'.keys[c'.order[i]] != c'.keys[c'.order[j]]
    {
      assert c'.order[i] == c.order[i] && c'.order[j] == c.order[j];
      assert Indexed(c, c.order[j]);
    }
  }

  /** A pushed node is fresh, so the live ids stay allocated and distinct. */
  lemma PushWellFormed(c: CacheView, key: string, value: Value)
    requires WellFormed(c)
    ensures WellFormed(Push(c, key, value))
  {
    var c' := Push(c, key, value);
    var id := |c.keys|;
    forall i | 0 <= i < |c'.order|
      ensures c'.order[i] < |c'.keys|
    {
      if i > 0 {
        assert c'.order[i] == c.order[i - 1];
      }
    }
    forall i, j | 0 <= i < j < |c'.order|
      ensures c'.order[i] != c'.order[j]
    {
      assert c'.order[j] == c.order[j - 1];
      if i > 0 {
        assert c'.order[i] == c.order[i - 1];
      }
    }
  }

  /** The index entry a push writes names the new head; the other entries still name live nodes. */
  lemma PushIndexSound(c: CacheView, key: string, value: Value)
    requires WellFormed(c) && IndexSound(c)
    ensures IndexSound(Push(c, key, value))
  {
    var c' := Push(c, key, value);
    assert c'.order[0] == |c.keys|;
    forall k | k in c'.refs
      ensures c'.refs[k] in c'.order && c'.refs[k] < |c'.keys| && c'.keys[c'.refs[k]] == k
    {
      if k != key {
        assert c'.refs[k] == c.refs[k];
        var m := IndexOf(c.order, c.refs[k]);
        assert c'.order[m + 1] == c.refs[k];
      }
    }
  }

  /** After a push, no live node ahead of an indexed node carries its key. */
  lemma PushIndexNewest(c: CacheView, key: string, value: Value)
    requires WellFormed(c) && IndexNewest(c) && WellFormed(Push(c, key, value))
    ensures IndexNewest(Push(c, key, value))
  {
    var c' := Push(c, key, value);
    var id := |c.keys|;
    assert c'.order[0] == id && c'.refs[key] == id;
    forall i, j | 0 <= i < j < |c'.order| && Indexed(c', c'.order[j])
      ensures c'.keys[c'.order[i]] != c'.keys[c'.order[j]]
    {
      var b := c.order[j - 1];
      assert c'.order[j] == b && b < id && c'.keys[b] == c.keys[b];
      assert c.keys[b] != key;
      assert Indexed(c, b);
      if i > 0 {
        assert c'.order[i] == c.order[i - 1];
      }
    }
  }

  lemma {:induction false} PushKeepsInv(c: CacheView, key: string, value: Value, capacity: nat)
    requires Inv(c, capacity) && |c.order| < capacity
    ensures Inv(Push(c, key, value), capacity)
  {
    PushWellFormed(c, key, value);
    PushIndexSound(c, key, value);
    PushIndexNewest(c, key, value);
  }

  /** With a capacity of at least one, `set` keeps the invariant, `len <= capacity` included. */
  lemma {:induction false} SetKeepsInv(c: CacheView, key: string, value: Value, capacity: nat)
    requires Inv(c, capacity) && capacity >= 1
    ensures Inv(SetView(c, key, value, capacity), capacity)
  {
    if capacity == |c.order| {
      EvictKeepsInv(c, capacity);
      PushKeepsInv(Evict(c), key, value, capacity);
    } else {
      PushKeepsInv(c, key, value, capacity);
    }
  }

  /**
   * After `set(key, value)` the head is a fresh node holding `key` and
   * `value`, and it is what the index holds for `key`. When the list was
   * full, the old tail is gone and the key it carried is no longer indexed;
   * every other key keeps its entry, and the other nodes keep their order.
   */
  lemma {:induction false} SetFacts(c: CacheView, key: string, value: Value, capacity: nat)
    requires Inv(c, capacity) && capacity >= 1
    ensures var c' := SetView(c, key, value, capacity);
      var id := c'.order[0];
      id == |c'.keys| - 1 && id !in c.order &&
      key in c'.refs && c'.refs[key] == id && c'.keys[id] == key && c'.vals[id] == value &&
      c'.keys[..|c.keys|] == c.keys && c'.vals[..|c.vals|] == c.vals
    ensures var c' := SetView(c, key, value, capacity);
      |c.order| < capacity ==>
        c'.order == [c'.order[0]] + c.order &&
        (forall k :: k != key ==> (k in c'.refs <==> k in c.refs) && (k in c.refs ==> c'.refs[k] == c.refs[k]))
    ensures var c' := SetView(c, key, value, capacity);
      |c.order| == capacity ==>
        var evicted := c.keys[c.order[capacity - 1]];
        c'.order == [c'.order[0]] + c.order[..capacity - 1] &&
        (forall k :: k != key ==> (k in c'.refs <==> k in c.refs && k != evicted) && (k in c'.refs ==> c'.refs[k] == c.refs[k]))
  {
    var c' := SetView(c, key, value, capacity);
    var id := |if capacity == |c.order| then Evict(c).keys else c.keys|;
    assert c'.order[0] == id && id == |c.keys|;
    assert forall i :: 0 <= i < |c.order| ==> c.order[i] != id;
    assert c'.keys[..|c.keys|] == c.keys;
    assert c'.vals[..|c.vals|] == c.vals;
  }

  /** With room left, a `set` of an already indexed key grows the list by one and leaves the older node in it, unindexed. */
  lemma {:induction false} RepeatedSetGrows(c: CacheView, key: string, value: Value, capacity: nat)
    requires Inv(c, capacity) && key in c.refs && |c.order| < capacity
    ensures var c' := SetView(c, key, value, capacity);
      |c'.order| == |c.order| + 1 && c.refs[key] in c'.order && !Indexed(c', c.refs[key]) &&
      c'.keys[c.refs[key]] == key
  {
    var c' := SetView(c, key, value, capacity);
    var old_id := c.refs[key];
    var m := IndexOf(c.order, old_id);
    assert c'.order[m + 1] == old_id;
    assert c'.keys[old_id] == key && c'.refs[key] == |c.keys| != old_id;
  }

  /** `set` on a capacity of 0 is not refused: the list grows past the bound. */
  lemma ZeroCapacityOverflows(key: string, value: Value)
    ensures var c' := SetView(Empty, key, value, 0);
      |c'.order| == 1 && |SetView(c', key, value, 0).order| == 2
  {
    var c' := SetView(Empty, key, value, 0);
    assert Distinct(c'.order);
  }

  /** Where `MoveToFront(s, p)` takes each position of `s`. */
  lemma MovedPositions(s: seq<nat>, p: nat)
    requires p < |s|
    ensures forall m :: 0 <= m < |s| ==>
      MoveToFront(s, p)[if m == p then 0 else if m < p then m + 1 else m] == s[m]
    ensures forall i :: 0 <= i < |s| ==>
      MoveToFront(s, p)[i] == s[if i == 0 then p else if i <= p then i - 1 else i]
  {
  }

  /** Moving a live node to the front keeps every live id allocated and distinct. */
  lemma MoveKeepsWellFormed(c: CacheView, p: nat)
    requires WellFormed(c) && p < |c.order|
    ensures WellFormed(c.(order := MoveToFront(c.order, p)))
  {
    var c' := c.(order := MoveToFront(c.order, p));
    MovedPositions(c.order, p);
    MoveToFrontDistinct(c.order, p);
    forall i | 0 <= i < |c'.order|
      ensures c'.order[i] < |c'.keys|
    {
      assert c'.order[i] == c.order[if i == 0 then p else if i <= p then i - 1 else i];
    }
  }

  /** Moving a live node to the front keeps every index entry naming a live node. */
  lemma MoveKeepsIndexSound(c: CacheView, p: nat)
    requires WellFormed(c) && IndexSound(c) && p < |c.order|
    ensures IndexSound(c.(order := MoveToFront(c.order, p)))
  {
    var s := c.order;
    var s' := MoveToFront(s, p);
    forall k | k in c.refs
      ensures c.refs[k] in s'
    {
      var id := c.refs[k];
      var m := IndexOf(s, id);
      if m == p {
        assert s'[0] == id;
      } else if m < p {
        assert s'[m + 1] == s[..p][m];
      } else {
        assert s'[m] == s[p + 1..][m - p - 1];
      }
    }
  }

  /** Moving a live node to the front keeps every live id and the index's pointers valid. */
  lemma {:induction false} MoveKeepsSound(c: CacheView, p: nat, capacity: nat)
    requires Inv(c, capacity) && p < |c.order|
    ensures var c' := c.(order := MoveToFront(c.order, p));
      WellFormed(c') && |c'.order| <= capacity && IndexSound(c')
  {
    MoveKeepsWellFormed(c, p);
    MoveKeepsIndexSound(c, p);
  }

  /** Moving an indexed node to the front keeps indexed nodes ahead of their stale namesakes. */
  lemma {:induction false} MoveIndexedKeepsNewest(c: CacheView, p: nat)
    requires WellFormed(c) && IndexNewest(c) && p < |c.order| && Indexed(c, c.order[p])
    requires WellFormed(c.(order := MoveToFront(c.order, p)))
    ensures IndexNewest(c.(order := MoveToFront(c.order, p)))
  {
    var c' := c.(order := MoveToFront(c.order, p));
    forall i, j | 0 <= i < j < |c'.order| && Indexed(c', c'.order[j])
      ensures c'.keys[c'.order[i]] != c'.keys[c'.order[j]]
    {
      var oi := if i == 0 then p else if i <= p then i - 1 else i;
      var oj := if j <= p then j - 1 else j;
      assert c'.order[i] == c.order[oi] && c'.order[j] == c.order[oj];
      assert Indexed(c, c.order[oj]) && oj != p;
      assert i > 0 ==> oi < oj;
    }
  }

  lemma {:induction false} GetKeepsInv(c: CacheView, key: string, capacity: nat)
    requires Inv(c, capacity)
    ensures Inv(GetView(c, key).1, capacity)
  {
    if key in c.refs {
      var p := IndexOf(c.order, c.refs[key]);
      MoveKeepsSound(c, p, capacity);
      MoveIndexedKeepsNewest(c, p);
    }
  }

  /**
   * `get` on a key the index lacks yields nothing and changes nothing; on
   * an indexed key it yields that node's value, makes that node the head
   * and keeps the same live nodes, the index and every stored payload.
   */
  lemma {:induction false} GetFacts(c: CacheView, key: string, capacity: nat)
    requires Inv(c, capacity)
    ensures var (r, c') := GetView(c, key);
      key !in c.refs ==> r == None && c' == c
    ensures var (r, c') := GetView(c, key);
      key in c.refs ==>
        r == Some(c.vals[c.refs[key]]) && c.keys[c.refs[key]] == key &&
        c'.order[0] == c.refs[key] && |c'.order| == |c.order| &&
        multiset(c'.order) == multiset(c.order) &&
        c'.refs == c.refs && c'.keys == c.keys && c'.vals == c.vals
  {
    if key in c.refs {
      MoveToFrontFacts(c.order, IndexOf(c.order, c.refs[key]));
    }
  }

  /** A `get` right after `set(key, value)` hits and yields `value`. */
  lemma {:induction false} GetAfterSet(c: CacheView, key: string, value: Value, capacity: nat)
    requires Inv(c, capacity) && capacity >= 1
    ensures Inv(SetView(c, key, value, capacity), capacity)
    ensures GetView(SetView(c, key, value, capacity), key).0 == Some(value)
  {
    SetKeepsInv(c, key, value, capacity);
    SetFacts(c, key, value, capacity);
  }

  /**
   * Evicting a stale node for `k` (one the index no longer points to) drops
   * `k` from the index although the newer node for `k` stays in the list,
   * so a later `get(k)` misses.
   */
  lemma {:induction false} StaleEvictionDropsKey(c: CacheView, k: string, key: string, value: Value, capacity: nat)
    requires Inv(c, capacity) && capacity >= 1 && |c.order| == capacity
    requires k in c.refs && key != k
    requires c.keys[c.order[capacity - 1]] == k && c.refs[k] != c.order[capacity - 1]
    ensures var c' := SetView(c, key, value, capacity);
      Inv(c', capacity) && k !in c'.refs && c.refs[k] in c'.order && c'.keys[c.refs[k]] == k &&
      GetView(c', k).0 == None
  {
    SetKeepsInv(c, key, value, capacity);
    SetFacts(c, key, value, capacity);
    var c' := SetView(c, key, value, capacity);
    var m := IndexOf(c.order, c.refs[k]);
    assert m != capacity - 1;
    assert c'.order[m + 1] == c.refs[k];
  }

  // The states of the scenario below, after each `set`.
  const S1 := CacheView(map["k" := 0], ["k"], [Str("1")], [0])
  const S2 := CacheView(map["k" := 0, "a" := 1], ["k", "a"], [Str("1"), Str("a")], [1, 0])
  const S3 := CacheView(map["k" := 0, "a" := 1, "b" := 2], ["k", "a", "b"], [Str("1"), Str("a"), Str("b")], [2, 1, 0])
  const S4 := CacheView(map["k" := 0, "a" := 1, "b" := 2, "c" := 3], ["k", "a", "b", "c"],
                        [Str("1"), Str("a"), Str("b"), Str("c")], [3, 2, 1, 0])
  const S5 := CacheView(map["k" := 4, "a" := 1, "b" := 2, "c" := 3], ["k", "a", "b", "c", "k"],
                        [Str("1"), Str("a"), Str("b"), Str("c"), Str("2")], [4, 3, 2, 1, 0])

  lemma ScenarioStep1() ensures SetView(Empty, "k", Str("1"), 5) == S1 {}
  lemma ScenarioStep2() ensures SetView(S1, "a", Str("a"), 5) == S2 {}
  lemma ScenarioStep3() ensures SetView(S2, "b", Str("b"), 5) == S3 {}
  lemma ScenarioStep4() ensures SetView(S3, "c", Str("c"), 5) == S4 {}
  lemma ScenarioStep5() ensures SetView(S4, "k", Str("2"), 5) == S5 {}

  lemma ScenarioInv()
    ensures Inv(S5, 5)
  {
    ScenarioStep1(); ScenarioStep2(); ScenarioStep3(); ScenarioStep4(); ScenarioStep5();
    assert Distinct(Empty.order);
    SetKeepsInv(Empty, "k", Str("1"), 5);
    SetKeepsInv(S1, "a", Str("a"), 5);
    SetKeepsInv(S2, "b", Str("b"), 5);
    SetKeepsInv(S3, "c", Str("c"), 5);
    SetKeepsInv(S4, "k", Str("2"), 5);
  }

  const S6 := CacheView(map["a" := 1, "b" := 2, "c" := 3, "d" := 5], ["k", "a", "b", "c", "k", "d"],
                        [Str("1"), Str("a"), Str("b"), Str("c"), Str("2"), Str("d")], [5, 4, 3, 2, 1])

  lemma ScenarioStep6() ensures SetView(S5, "d", Str("d"), 5) == S6 {}

  lemma ScenarioWellFormed()
    ensures WellFormed(S1) && WellFormed(S2) && WellFormed(S3) && WellFormed(S4)
  {
    assert Distinct(S1.order) && Distinct(S2.order);
    assert Distinct(S3.order) && Distinct(S4.order);
  }

  /** Five `set`s from an empty cache of capacity 5: k, a, b, c, then k again. */
  lemma ScenarioReachesS5()
    ensures WellFormed(S1) && WellFormed(S2) && WellFormed(S3) && WellFormed(S4)
    ensures SetView(Empty, "k", Str("1"), 5) == S1 && SetView(S1, "a", Str("a"), 5) == S2
    ensures SetView(S2, "b", Str("b"), 5) == S3 && SetView(S3, "c", Str("c"), 5) == S4
    ensures SetView(S4, "k", Str("2"), 5) == S5
    ensures SetView(SetView(SetView(SetView(SetView(
              Empty, "k", Str("1"), 5), "a", Str("a"), 5), "b", Str("b"), 5), "c", Str("c"), 5), "k", Str("2"), 5) == S5
  {
    ScenarioWellFormed();
    ScenarioStep1(); ScenarioStep2(); ScenarioStep3(); ScenarioStep4(); ScenarioStep5();
  }

  /**
   * A sixth `set`, of d, evicts the first node for k; the second node for k,
   * holding the newer value, is still in the list, but `get(k)` misses.
   */
  lemma StaleEvictionScenario()
    ensures var c' := SetView(S5, "d", Str("d"), 5);
      Inv(c', 5) && c'.keys[c'.order[1]] == "k" && c'.vals[c'.order[1]] == Str("2") &&
      GetView(c', "k").0 == None
  {
    ScenarioInv();
    SetKeepsInv(S5, "d", Str("d"), 5);
    ScenarioStep6();
  }

  /** `struct Lru`. */
  class Lru {
    var refs: map<string, nat>
    const data: List
    const capacity: nat

    ghost function View(): CacheView
      reads this, data
    {
      CacheView(refs, KeyTable(data.nodes), ValueTable(data.nodes), data.order)
    }

    ghost predicate Valid()
      reads this, data
    {
      data.Valid() && capacity >= 1 && Inv(View(), capacity)
    }

    /** `Lru::new`: an empty index and list, capacity 5. */
    constructor ()
      ensures Valid() && fresh(data) && capacity == DefaultCapacity && View() == Empty
    {
      refs := map[];
      data := new List();
      capacity := DefaultCapacity;
    }

    /** `Lru::set`. */
    method Set(key: string, value: Value)
      requires Valid()
      modifies this, data
      ensures Valid() && View() == SetView(old(View()), key, value, capacity)
    {
      ghost var c := View();
      if capacity == data.len {
        var popped := data.PopBack();
        match popped {
          case Some(k) => refs := refs - {k};
          case None =>
        }
      }
      var id := data.PushFront(key, value);
      refs := refs[key := id];
      SetKeepsInv(c, key, value, capacity);
    }

    /** `Lru::get`: a clone of the stored value, after moving its node to the front. */
    method Get(key: string) returns (r: Option<Value>)
      requires Valid()
      modifies data
      ensures Valid() && (r, View()) == GetView(old(View()), key)
    {
      ghost var c := View();
      if key !in refs {
        return None;
      }
      var id := refs[key];
      data.MoveFront(id);
      r := Some(data.nodes[id].value);
      GetKeepsInv(c, key, capacity);
    }
  }
}
