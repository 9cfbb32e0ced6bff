/**
 * The recency list (lru/src/list.rs): a doubly-linked list of nodes with
 * `head`, `tail` and `len`. The raw `NonNull<Node>` links become ids into an
 * arena of node records that only grows; the source never frees a node
 * (the `Box::from_raw` in `pop_back` is commented out), so ids are never
 * reused. The ghost sequence `order` is the head-to-tail walk.
 */
module LinkedList {
  import opened Wrappers
  import opened Values

  /** `struct Node`: links are arena ids. */
  datatype Node = Node(key: string, value: Value, prev: Option<nat>, next: Option<nat>)

  /** `Node::new`: a node with no links. */
  function NewNode(key: string, value: Value): (n: Node)
    ensures n.key == key && n.value == value
    ensures IsHead(n) && IsTail(n)
  {
    Node(key, value, None, None)
  }

  predicate IsTail(n: Node) { n.next == None }

  predicate IsHead(n: Node) { n.prev == None }

  /**
   * A new node is a tail until its `next` is set, and a head until its
   * `prev` is set; linking it on one side leaves the other end as it was.
   */
  lemma NodeEnds(key: string, value: Value, id: nat)
    ensures IsTail(NewNode(key, value)) && IsHead(NewNode(key, value))
    ensures var n := NewNode(key, value).(next := Some(id));
      !IsTail(n) && IsHead(n)
    ensures var n := NewNode(key, value).(prev := Some(id));
      IsTail(n) && !IsHead(n)
  {
  }

  function First(s: seq<nat>): Option<nat> { if s == [] then None else Some(s[0]) }

  function Last(s: seq<nat>): Option<nat> { if s == [] then None else Some(s[|s| - 1]) }

  ghost predicate Distinct(s: seq<nat>)
  {
    forall i, j :: 0 <= i < j < |s| ==> s[i] != s[j]
  }

  /**
   * `ids` names the nodes met walking `next` from the head, and the links
   * say exactly that: the first has no `prev`, the last no `next`, and every
   * `next` link is mirrored by a `prev` link.
   */
  ghost predicate Linked(nodes: seq<Node>, ids: seq<nat>)
  {
    InArena(nodes, ids) && Distinct(ids) && PrevLinks(nodes, ids) && NextLinks(nodes, ids)
  }

  ghost predicate InArena(nodes: seq<Node>, ids: seq<nat>)
  {
    forall i :: 0 <= i < |ids| ==> ids[i] < |nodes|
  }

  ghost predicate PrevLinks(nodes: seq<Node>, ids: seq<nat>)
    requires InArena(nodes, ids)
  {
    forall i :: 0 <= i < |ids| ==> nodes[ids[i]].prev == (if i == 0 then None else Some(ids[i - 1]))
  }

  ghost predicate NextLinks(nodes: seq<Node>, ids: seq<nat>)
    requires InArena(nodes, ids)
  {
    forall i :: 0 <= i < |ids| ==> nodes[ids[i]].next == (if i == |ids| - 1 then None else Some(ids[i + 1]))
  }

  /** The links of the node at position `i`. */
  lemma LinksAt(nodes: seq<Node>, ids: seq<nat>, i: nat)
    requires Linked(nodes, ids) && i < |ids|
    ensures ids[i] < |nodes|
    ensures nodes[ids[i]].prev == (if i == 0 then None else Some(ids[i - 1]))
    ensures nodes[ids[i]].next == (if i == |ids| - 1 then None else Some(ids[i + 1]))
  {
    assert PrevLinks(nodes, ids) && NextLinks(nodes, ids);
  }

  /** The key and the value stored in each arena slot, by id. */
  function KeyTable(nodes: seq<Node>): (r: seq<string>)
    ensures |r| == |nodes|
  {
    seq(|nodes|, i requires 0 <= i < |nodes| => nodes[i].key)
  }

  function ValueTable(nodes: seq<Node>): (r: seq<Value>)
    ensures |r| == |nodes|
  {
    seq(|nodes|, i requires 0 <= i < |nodes| => nodes[i].value)
  }

  function SetPrev(nodes: seq<Node>, id: nat, p: Option<nat>): seq<Node>
    requires id < |nodes|
  {
    nodes[id := nodes[id].(prev := p)]
  }

  function SetNext(nodes: seq<Node>, id: nat, n: Option<nat>): seq<Node>
    requires id < |nodes|
  {
    nodes[id := nodes[id].(next := n)]
  }

  /** The position of `x` in `s`. */
  function IndexOf(s: seq<nat>, x: nat): (r: nat)
    requires x in s
    ensures r < |s| && s[r] == x
    ensures x !in s[..r]
  {
    if s[0] == x then 0 else 1 + IndexOf(s[1..], x)
  }

  /** The order `move_front` produces: the element at `p` first, the others as they were. */
  function MoveToFront(s: seq<nat>, p: nat): seq<nat>
    requires p < |s|
  {
    [s[p]] + s[..p] + s[p + 1..]
  }

  /**
   * Moving to the front keeps the length and the elements, puts `s[p]`
   * first, keeps the others in their order, and changes the last element
   * only when the moved one was last.
   */
  lemma {:induction false} MoveToFrontFacts(s: seq<nat>, p: nat)
    requires p < |s|
    ensures var r := MoveToFront(s, p);
      |r| == |s| && multiset(r) == multiset(s) && r[0] == s[p] &&
      r[1..] == s[..p] + s[p + 1..] &&
      (p == 0 ==> r == s) &&
      Last(r) == (if p == |s| - 1 && |s| > 1 then Some(s[|s| - 2]) else Last(s))
  {
    var r := MoveToFront(s, p);
    calc {
      multiset(r);
      multiset([s[p]]) + multiset(s[..p]) + multiset(s[p + 1..]);
      { assert s == s[..p] + [s[p]] + s[p + 1..]; }
      multiset(s);
    }
    if p == 0 {
      assert r == s;
    }
  }

  lemma {:induction false} MoveToFrontDistinct(s: seq<nat>, p: nat)
    requires p < |s| && Distinct(s)
    ensures Distinct(MoveToFront(s, p))
  {
    var r := MoveToFront(s, p);
    forall i, j | 0 <= i < j < |r|
      ensures r[i] != r[j]
    {
      var oi := if i == 0 then p else if i <= p then i - 1 else i;
      var oj := if j <= p then j - 1 else j;
      assert r[i] == s[oi] && r[j] == s[oj] && oi != oj;
    }
  }

  /** In a list without repeats, the element taken out is no longer there. */
  lemma DistinctRemove(s: seq<nat>, p: nat)
    requires Distinct(s) && p < |s|
    ensures s[p] !in s[..p] + s[p + 1..]
  {
    var r := s[..p] + s[p + 1..];
    forall j | 0 <= j < |r|
      ensures r[j] != s[p]
    {
      assert r[j] == s[if j < p then j else j + 1];
    }
  }

  /** A node that is not in the list can be appended to the arena or relinked freely. */
  lemma LinkedDetached(nodes: seq<Node>, ids: seq<nat>, x: nat, n: Node)
    requires Linked(nodes, ids) && x <= |nodes| && x !in ids
    ensures Linked(if x == |nodes| then nodes + [n] else nodes[x := n], ids)
  {
    var nodes' := if x == |nodes| then nodes + [n] else nodes[x := n];
    forall i | 0 <= i < |ids|
      ensures nodes'[ids[i]] == nodes[ids[i]]
    {
      assert ids[i] != x;
    }
  }

  /** `push_front_node`: linking a detached node whose `next` is the head in front of it. */
  lemma LinkedPushFront(nodes: seq<Node>, ids: seq<nat>, x: nat)
    requires Linked(nodes, ids) && x < |nodes| && x !in ids
    requires nodes[x].next == First(ids) && nodes[x].prev == None
    ensures Linked(if ids == [] then nodes else SetPrev(nodes, ids[0], Some(x)), [x] + ids)
  {
    var nodes' := if ids == [] then nodes else SetPrev(nodes, ids[0], Some(x));
    var ids' := [x] + ids;
    forall i | 0 <= i < |ids'|
      ensures ids'[i] < |nodes'|
      ensures nodes'[ids'[i]].prev == (if i == 0 then None else Some(ids'[i - 1]))
      ensures nodes'[ids'[i]].next == (if i == |ids'| - 1 then None else Some(ids'[i + 1]))
    {
      if i == 0 {
        assert ids != [] ==> x != ids[0];
        assert nodes'[x] == nodes[x];
      } else {
        assert ids'[i] == ids[i - 1];
        assert i < |ids'| - 1 ==> ids'[i + 1] == ids[i];
        if i > 1 {
          assert ids[i - 1] != ids[0];
        }
      }
    }
    forall i, j | 0 <= i < j < |ids'|
      ensures ids'[i] != ids'[j]
    {
      assert ids'[j] == ids[j - 1];
      if i > 0 {
        assert ids'[i] == ids[i - 1];
      }
    }
    assert InArena(nodes', ids');
    assert PrevLinks(nodes', ids');
    assert NextLinks(nodes', ids');
  }

  /** `pop_back`: dropping the tail and clearing the new tail's `next`. */
  lemma LinkedPopBack(nodes: seq<Node>, ids: seq<nat>)
    requires Linked(nodes, ids) && ids != []
    ensures var n := |ids|;
      Linked(if n == 1 then nodes else SetNext(nodes, ids[n - 2], None), ids[..n - 1])
  {
    var n := |ids|;
    var nodes' := if n == 1 then nodes else SetNext(nodes, ids[n - 2], None);
    var ids' := ids[..n - 1];
    forall i | 0 <= i < |ids'|
      ensures ids'[i] < |nodes'|
      ensures nodes'[ids'[i]].prev == (if i == 0 then None else Some(ids'[i - 1]))
      ensures nodes'[ids'[i]].next == (if i == |ids'| - 1 then None else Some(ids'[i + 1]))
    {
      assert ids'[i] == ids[i];
      if i < n - 2 {
        assert ids[i] != ids[n - 2];
        assert ids'[i + 1] == ids[i + 1];
      }
      if i > 0 {
        assert ids'[i - 1] == ids[i - 1];
      }
    }
    forall i, j | 0 <= i < j < |ids'|
      ensures ids'[i] != ids'[j]
    {
      assert ids'[i] == ids[i] && ids'[j] == ids[j];
    }
    assert InArena(nodes', ids');
    assert PrevLinks(nodes', ids');
    assert NextLinks(nodes', ids');
  }

  /** The links at position `i` once the node at `p` is bridged over. */
  lemma UnlinkLinksAt(nodes: seq<Node>, ids: seq<nat>, p: nat, i: nat)
    requires Linked(nodes, ids) && 0 < p < |ids| - 1 && i < |ids| - 1
    ensures var nodes' := SetPrev(SetNext(nodes, ids[p - 1], Some(ids[p + 1])), ids[p + 1], Some(ids[p - 1]));
      var ids' := ids[..p] + ids[p + 1..];
      ids'[i] < |nodes'| &&
      nodes'[ids'[i]].prev == (if i == 0 then None else Some(ids'[i - 1])) &&
      nodes'[ids'[i]].next == (if i == |ids'| - 1 then None else Some(ids'[i + 1]))
  {
    var a, b := ids[p - 1], ids[p + 1];
    var nodes' := SetPrev(SetNext(nodes, a, Some(b)), b, Some(a));
    var ids' := ids[..p] + ids[p + 1..];
    var oi := if i < p then i else i + 1;
    LinksAt(nodes, ids, oi);
    LinksAt(nodes, ids, p - 1);
    LinksAt(nodes, ids, p + 1);
    assert ids'[i] == ids[oi];
    assert a != b;
    if oi != p - 1 && oi != p + 1 {
      assert ids[oi] != a && ids[oi] != b;
      assert nodes'[ids[oi]] == nodes[ids[oi]];
    }
    if i > 0 {
      assert ids'[i - 1] == ids[if i - 1 < p then i - 1 else i];
    }
    if i < |ids'| - 1 {
      assert ids'[i + 1] == ids[if i + 1 < p then i + 1 else i + 2];
    }
  }

  /** The interior branch of `move_front`: bridging over the node at `p`. */
  lemma LinkedUnlink(nodes: seq<Node>, ids: seq<nat>, p: nat)
    requires Linked(nodes, ids) && 0 < p < |ids| - 1
    ensures Linked(SetPrev(SetNext(nodes, ids[p - 1], Some(ids[p + 1])), ids[p + 1], Some(ids[p - 1])),
                   ids[..p] + ids[p + 1..])
  {
    var nodes' := SetPrev(SetNext(nodes, ids[p - 1], Some(ids[p + 1])), ids[p + 1], Some(ids[p - 1]));
    var ids' := ids[..p] + ids[p + 1..];
    forall i | 0 <= i < |ids'|
      ensures ids'[i] < |nodes'|
      ensures nodes'[ids'[i]].prev == (if i == 0 then None else Some(ids'[i - 1]))
      ensures nodes'[ids'[i]].next == (if i == |ids'| - 1 then None else Some(ids'[i + 1]))
    {
      UnlinkLinksAt(nodes, ids, p, i);
    }
    forall i, j | 0 <= i < j < |ids'|
      ensures ids'[i] != ids'[j]
    {
      var oi := if i < p then i else i + 1;
      var oj := if j < p then j else j + 1;
      assert ids'[i] == ids[oi] && ids'[j] == ids[oj];
    }
    assert InArena(nodes', ids');
    assert PrevLinks(nodes', ids');
    assert NextLinks(nodes', ids');
  }

  /** Rewriting a node's links leaves every key and value in the arena as it was. */
  lemma RelinkKeepsPayload(nodes: seq<Node>, id: nat, n: Node)
    requires id < |nodes| && n.key == nodes[id].key && n.value == nodes[id].value
    ensures KeyTable(nodes[id := n]) == KeyTable(nodes)
    ensures ValueTable(nodes[id := n]) == ValueTable(nodes)
  {
  }

  /** `struct List`. */
  class List {
    var nodes: seq<Node>
    var head: Option<nat>
    var tail: Option<nat>
    var len: nat
    ghost var order: seq<nat>

    ghost predicate Valid()
      reads this
    {
      Linked(nodes, order) && len == |order| && head == First(order) && tail == Last(order)
    }

    /** `List::new`: no head, no tail, length 0. */
    constructor ()
      ensures Valid() && order == [] && nodes == []
      ensures head == None && tail == None && len == 0
    {
      nodes, head, tail, len := [], None, None, 0;
      order := [];
    }

    /** `len`. */
    function Len(): (n: nat)
      reads this
      requires Valid()
      ensures n == |order|
    {
      len
    }

    /** `push_front_node`: links the detached node `x`, whose `next` already is the head, at the front. */
    method PushFrontNode(x: nat)
      requires Valid() && x < |nodes| && x !in order
      requires nodes[x].next == head && nodes[x].prev == None
      modifies this
      ensures Valid() && order == [x] + old(order) && head == Some(x)
      ensures old(order) == [] ==> tail == Some(x)
      ensures old(order) != [] ==> tail == old(tail)
      ensures |nodes| == old(|nodes|)
      ensures KeyTable(nodes) == old(KeyTable(nodes)) && ValueTable(nodes) == old(ValueTable(nodes))
    {
      LinkedPushFront(nodes, order, x);
      match head {
        case None =>
          tail := Some(x);
        case Some(h) =>
          RelinkKeepsPayload(nodes, h, nodes[h].(prev := Some(x)));
          nodes := nodes[h := nodes[h].(prev := Some(x))];
      }
      head := Some(x);
      len := len + 1;
      order := [x] + order;
    }

    /** `push_front`: allocates a fresh node for `key`/`value` and makes it the head. */
    method PushFront(key: string, value: Value) returns (x: nat)
      requires Valid()
      modifies this
      ensures Valid() && x == old(|nodes|) && x !in old(order)
      ensures order == [x] + old(order) && head == Some(x) && len == old(len) + 1
      ensures old(order) == [] ==> tail == Some(x)
      ensures old(order) != [] ==> tail == old(tail)
      ensures KeyTable(nodes) == old(KeyTable(nodes)) + [key]
      ensures ValueTable(nodes) == old(ValueTable(nodes)) + [value]
    {
      var node := NewNode(key, value).(next := head, prev := None);
      x := |nodes|;
      LinkedDetached(nodes, order, x, node);
      nodes := nodes + [node];
      assert KeyTable(nodes) == old(KeyTable(nodes)) + [key];
      assert ValueTable(nodes) == old(ValueTable(nodes)) + [value];
      PushFrontNode(x);
    }

    /**
     * `pop_back`: on an empty list yields nothing and changes nothing;
     * otherwise unlinks the tail and yields its key.
     */
    method PopBack() returns (key: Option<string>)
      requires Valid()
      modifies this
      ensures Valid()
      ensures KeyTable(nodes) == old(KeyTable(nodes)) && ValueTable(nodes) == old(ValueTable(nodes))
      ensures old(len) == 0 ==> key == None && unchanged(this)
      ensures old(len) > 0 ==>
        key == Some(old(nodes[order[len - 1]].key)) &&
        order == old(order[..len - 1]) && len == old(len) - 1 &&
        tail == Last(order) && (order == [] ==> head == None)
    {
      match tail {
        case None =>
          key := None;
        case Some(t) =>
          key := Some(nodes[t].key);
          LinksAt(nodes, order, |order| - 1);
          LinkedPopBack(nodes, order);
          tail := nodes[t].prev;
          match tail {
            case None =>
              head := None;
            case Some(t') =>
              RelinkKeepsPayload(nodes, t', nodes[t'].(next := None));
              nodes := nodes[t' := nodes[t'].(next := None)];
          }
          len := len - 1;
          order := order[..len];
      }
    }

    /**
     * The unlinking half of `move_front`, for a node `x` that is not the
     * head of a list of two or more: the tail goes through `pop_back`, an
     * interior node is bridged over (its neighbours' links are rewritten and
     * `len` drops by one).
     */
    method Detach(x: nat)
      requires Valid() && x in order && len > 1 && !IsHead(nodes[x])
      modifies this
      ensures Valid() && x < |nodes| && x !in order
      ensures order == old(order[..IndexOf(order, x)] + order[IndexOf(order, x) + 1..])
      ensures len == old(len) - 1 && head == old(head)
      ensures tail == (if old(tail) == Some(x) then Some(old(order)[old(len) - 2]) else old(tail))
      ensures KeyTable(nodes) == old(KeyTable(nodes)) && ValueTable(nodes) == old(ValueTable(nodes))
    {
      var node := nodes[x];
      ghost var p := IndexOf(order, x);
      LinksAt(nodes, order, p);
      DistinctRemove(order, p);
      if IsTail(node) {
        assert order[..p] + order[p + 1..] == order[..p];
        var _ := PopBack();
      } else {
        LinkedUnlink(nodes, order, p);
        match node.prev {
          case Some(a) =>
            RelinkKeepsPayload(nodes, a, nodes[a].(next := node.next));
            nodes := nodes[a := nodes[a].(next := node.next)];
          case None =>
        }
        match node.next {
          case Some(b) =>
            RelinkKeepsPayload(nodes, b, nodes[b].(prev := node.prev));
            nodes := nodes[b := nodes[b].(prev := node.prev)];
          case None =>
        }
        len := len - 1;
        order := order[..p] + order[p + 1..];
      }
    }

    /**
     * The relinking half of `move_front`: the detached node `x` gets the
     * head as its `next`, no `prev`, and is pushed at the front.
     */
    method Relink(x: nat)
      requires Valid() && x < |nodes| && x !in order
      modifies this
      ensures Valid() && order == [x] + old(order) && head == Some(x) && len == old(len) + 1
      ensures tail == (if old(order) == [] then Some(x) else old(tail))
      ensures KeyTable(nodes) == old(KeyTable(nodes)) && ValueTable(nodes) == old(ValueTable(nodes))
    {
      var relinked := nodes[x].(next := head, prev := None);
      LinkedDetached(nodes, order, x, relinked);
      RelinkKeepsPayload(nodes, x, relinked);
      nodes := nodes[x := relinked];
      PushFrontNode(x);
    }

    /**
     * `move_front`: makes the live node `x` the head. A no-op when the list
     * has one node or `x` already is the head; otherwise `x` is detached and
     * pushed back at the front, so `len` ends where it started.
     */
    method MoveFront(x: nat)
      requires Valid() && x in order
      modifies this
      ensures Valid() && len == old(len) && head == Some(x)
      ensures order == MoveToFront(old(order), IndexOf(old(order), x))
      ensures (old(len) == 1 || old(head) == Some(x)) ==> unchanged(this)
      ensures tail == (if old(tail) == Some(x) && old(len) > 1 then Some(old(order)[old(len) - 2]) else old(tail))
      ensures KeyTable(nodes) == old(KeyTable(nodes)) && ValueTable(nodes) == old(ValueTable(nodes))
    {
      ghost var p := IndexOf(order, x);
      LinksAt(nodes, order, p);
      if len == 1 || IsHead(nodes[x]) {
        assert p == 0 && MoveToFront(order, p) == order;
        return;
      }
      Detach(x);
      Relink(x);
    }

    /**
     * The head-to-tail walk of the `Debug` impl: follows `next` from the
     * head and collects each node's key and value. It stops after exactly
     * `len` nodes, having met them in list order.
     */
    method Walk() returns (entries: seq<(string, Value)>)
      requires Valid()
      ensures |entries| == len
      ensures forall i :: 0 <= i < |entries| ==> entries[i] == (nodes[order[i]].key, nodes[order[i]].value)
    {
      entries := [];
      var current := head;
      ghost var i := 0;
      while current.Some?
        invariant 0 <= i <= |order| && |entries| == i
        invariant current == (if i < |order| then Some(order[i]) else None)
        invariant forall j :: 0 <= j < i ==> entries[j] == (nodes[order[j]].key, nodes[order[j]].value)
        decreases |order| - i
      {
        LinksAt(nodes, order, i);
        var node := nodes[current.value];
        entries := entries + [(node.key, node.value)];
        current := node.next;
        i := i + 1;
      }
    }
  }
}
