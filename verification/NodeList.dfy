/** The doubly linked list of the IPC server: heap nodes relinked in place, specified by the sequence they hold. */
module NodeList {

  import opened Wrappers

  /** What one node carries: its data and its type data (a message type, or a client's event bitmap). */
  datatype Item<D> = Item(data: D, typeData: int)

  class Node<D(==)> {
    const data: D
    const typeData: int
    var next: Node?<D>
    var prev: Node?<D>

    constructor (data: D, typeData: int)
      ensures this.data == data && this.typeData == typeData && next == null && prev == null
    {
      this.data, this.typeData := data, typeData;
      next, prev := null, null;
    }
  }

  /** The items whose data is not the given value, in order. */
  function Without<D(==)>(s: seq<Item<D>>, value: D): (r: seq<Item<D>>)
    ensures forall i :: 0 <= i < |r| ==> r[i].data != value && r[i] in s
  {
    if s == [] then []
    else if s[0].data == value then Without(s[1..], value)
    else [s[0]] + Without(s[1..], value)
  }

  lemma {:induction false} WithoutNone<D>(s: seq<Item<D>>, value: D)
    requires forall i :: 0 <= i < |s| ==> s[i].data != value
    ensures Without(s, value) == s
  {
    if s != [] {
      WithoutNone(s[1..], value);
    }
  }

  lemma {:induction false} WithoutOne<D>(s: seq<Item<D>>, value: D, i: nat)
    requires i < |s| && s[i].data == value
    ensures Without(s[..i] + s[i + 1..], value) == Without(s, value)
  {
    if i == 0 {
      assert s[..0] + s[1..] == s[1..];
    } else {
      var t := s[..i] + s[i + 1..];
      assert t[1..] == s[1..][..i - 1] + s[1..][i..];
      WithoutOne(s[1..], value, i - 1);
    }
  }

  lemma {:induction false} WithoutConcat<D>(a: seq<Item<D>>, b: seq<Item<D>>, value: D)
    ensures Without(a + b, value) == Without(a, value) + Without(b, value)
  {
    if a == [] {
      assert a + b == b;
    } else {
      assert (a + b)[1..] == a[1..] + b;
      WithoutConcat(a[1..], b, value);
    }
  }

  lemma {:induction false} WithoutWithin<D>(s: seq<Item<D>>, value: D)
    ensures multiset(Without(s, value)) <= multiset(s)
  {
    if s != [] {
      WithoutWithin(s[1..], value);
      assert s == [s[0]] + s[1..];
    }
  }

  ghost predicate Distinct<D>(nodes: seq<Node<D>>) {
    forall i, j :: 0 <= i < j < |nodes| ==> nodes[i] != nodes[j]
  }

  ghost predicate Linked<D>(nodes: seq<Node<D>>)
    reads nodes
  {
    forall i, j :: 0 <= i && j == i + 1 < |nodes| ==> nodes[i].next == nodes[j] && nodes[j].prev == nodes[i]
  }

  ghost function Items<D>(nodes: seq<Node<D>>): (s: seq<Item<D>>)
    ensures |s| == |nodes| && forall i :: 0 <= i < |s| ==> s[i] == Item(nodes[i].data, nodes[i].typeData)
  {
    seq(|nodes|, i requires 0 <= i < |nodes| => Item(nodes[i].data, nodes[i].typeData))
  }

  lemma ItemsCut<D>(nodes: seq<Node<D>>, i: nat)
    requires i < |nodes|
    ensures Items(nodes[..i] + nodes[i + 1..]) == Items(nodes)[..i] + Items(nodes)[i + 1..]
  {
  }

  ghost predicate Within<D>(nodes: seq<Node<D>>, was: seq<Node<D>>) {
    forall k :: 0 <= k < |nodes| ==> nodes[k] in was
  }

  ghost predicate Passed<D>(nodes: seq<Node<D>>, i: nat, value: D) {
    i <= |nodes| && forall k :: 0 <= k < i ==> nodes[k].data != value
  }

  lemma TakenOut<D>(was: seq<Node<D>>, now: seq<Node<D>>, i: nat, value: D)
    requires i < |now| && Within(now, was) && Passed(now, i, value)
    ensures Within(now[..i] + now[i + 1..], was) && Passed(now[..i] + now[i + 1..], i, value)
  {
    var next := now[..i] + now[i + 1..];
    assert forall k :: 0 <= k < |next| ==> next[k] == now[if k < i then k else k + 1];
  }

  class List<D(==)> {
    var head: Node?<D>
    var tail: Node?<D>
    ghost var nodes: seq<Node<D>>

    /** The nodes are distinct and linked in both directions, with the head and the tail at the two ends. */
    ghost predicate Valid()
      reads this, nodes
    {
      && Distinct(nodes) && Linked(nodes)
      && (nodes == [] ==> head == null && tail == null)
      && (nodes != [] ==> head == nodes[0] && tail == nodes[|nodes| - 1] && head.prev == null && tail.next == null)
    }

    ghost function Contents(): seq<Item<D>>
      reads this`nodes
    {
      Items(nodes)
    }

    constructor ()
      ensures Valid() && Contents() == []
    {
      head, tail, nodes := null, null, [];
    }

    method PushBack(data: D, typeData: int)
      requires Valid()
      modifies this, nodes
      ensures Valid() && Contents() == old(Contents()) + [Item(data, typeData)]
      ensures fresh(nodes[|old(nodes)|]) && nodes[..|old(nodes)|] == old(nodes)
    {
      var node := new Node(data, typeData);
      if head == null {
        node.prev := null;
        head := node;
        tail := node;
      } else {
        node.prev := tail;
        tail.next := node;
        tail := node;
      }
      nodes := nodes + [node];
    }

    method Front() returns (r: Option<Item<D>>)
      requires Valid()
      ensures r == if Contents() == [] then None else Some(Contents()[0])
    {
      if head != null {
        r := Some(Item(head.data, head.typeData));
      } else {
        r := None;
      }
    }

    method Empty() returns (r: bool)
      requires Valid()
      ensures r <==> Contents() == []
    {
      r := head == null;
    }

    method PopFront()
      requires Valid()
      modifies this, nodes
      ensures Valid() && nodes == (if old(nodes) == [] then [] else old(nodes)[1..])
      ensures Contents() == if old(Contents()) == [] then [] else old(Contents())[1..]
    {
      if head != null {
        assert |nodes| > 1 ==> head.next == nodes[1];
        head := head.next;
        nodes := nodes[1..];
        assert forall k :: 0 <= k < |nodes| ==> nodes[k] == old(nodes)[k + 1];
        if head != null {
          head.prev := null;
        } else {
          tail := null;
        }
      }
    }

    /** Takes node i out of the chain. */
    method Unlink(current: Node<D>, ghost i: nat)
      requires Valid() && i < |nodes| && nodes[i] == current
      modifies this, nodes
      ensures Valid() && nodes == old(nodes)[..i] + old(nodes)[i + 1..]
      ensures current.next == old(current.next)
    {
      ghost var n := |nodes|;
      assert i > 0 ==> nodes[i - 1].next == current && current.prev == nodes[i - 1];
      assert i < n - 1 ==> current.next == nodes[i + 1] && nodes[i + 1].prev == current;
      if current.prev != null {
        current.prev.next := current.next;
      } else {
        head := current.next;
      }
      if current.next != null {
        current.next.prev := current.prev;
      } else {
        tail := current.prev;
      }
      ghost var was := nodes;
      nodes := nodes[..i] + nodes[i + 1..];
      forall a, b | 0 <= a && b == a + 1 < |nodes|
        ensures nodes[a].next == nodes[b] && nodes[b].prev == nodes[a]
      {
        var p := if a < i then a else a + 1;
        var q := if b < i then b else b + 1;
        assert nodes[a] == was[p] && nodes[b] == was[q];
        assert b != i ==> old(was[p].next == was[q] && was[q].prev == was[p]);
      }
    }

    /** deleteIntNodeWithValue: every node with the value goes, the others stay in order. */
    method DeleteNodesWithValue(value: D)
      requires Valid()
      modifies this, nodes
      ensures Valid() && Contents() == Without(old(Contents()), value)
      ensures Within(nodes, old(nodes))
    {
      var current := head;
      ghost var i: nat := 0;
      ghost var was := nodes;
      while current != null
        invariant Valid() && At(i, current)
        invariant Within(nodes, was) && Passed(nodes, i, value)
        invariant Without(Contents(), value) == Without(Items(was), value)
        decreases |nodes| - i
      {
        if current.data == value {
          ghost var now := nodes;
          current := DeleteAt(current, i, value);
          TakenOut(was, now, i, value);
        } else {
          assert i + 1 < |nodes| ==> current.next == nodes[i + 1];
          current := current.next;
          i := i + 1;
        }
      }
      WithoutNone(Contents(), value);
    }

    ghost predicate At(i: nat, current: Node?<D>)
      reads this`nodes
    {
      i <= |nodes| && current == if i < |nodes| then nodes[i] else null
    }

    method DeleteAt(current: Node<D>, ghost i: nat, ghost value: D) returns (next: Node?<D>)
      requires Valid() && i < |nodes| && nodes[i] == current && current.data == value
      modifies this, nodes
      ensures Valid() && At(i, next) && nodes == old(nodes)[..i] + old(nodes)[i + 1..]
      ensures Without(Contents(), value) == Without(old(Contents()), value)
    {
      ghost var before, was := nodes, Contents();
      WithoutOne(was, value, i);
      assert i + 1 < |nodes| ==> current.next == nodes[i + 1];
      Unlink(current, i);
      ItemsCut(before, i);
      next := current.next;
    }
  }
}
