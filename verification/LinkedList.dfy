/**
 * The heap lists: nodes with an index and a pointer to some data, added at the front and
 * unlinked by walking with two pointers.
 */
module LinkedList {
  import opened Wrappers

  datatype Entry<T> = Entry(index: int, data: T)

  /** The list without its first entry of that index. */
  function RemoveFirst<T>(s: seq<Entry<T>>, index: int): (r: seq<Entry<T>>) {
    if |s| == 0 then []
    else if s[0].index == index then s[1..]
    else [s[0]] + RemoveFirst(s[1..], index)
  }

  function FindFirst<T>(s: seq<Entry<T>>, index: int): Option<T> {
    if |s| == 0 then None
    else if s[0].index == index then Some(s[0].data)
    else FindFirst(s[1..], index)
  }

  /** Removing takes out one entry at most, the first that matches, and keeps the order. */
  lemma {:induction false} RemoveFirstAt<T>(s: seq<Entry<T>>, index: int, k: nat)
    requires k <= |s| && (forall j | 0 <= j < k :: s[j].index != index)
    requires k < |s| ==> s[k].index == index
    ensures RemoveFirst(s, index) == if k < |s| then s[..k] + s[k + 1..] else s
    ensures FindFirst(s, index) == if k < |s| then Some(s[k].data) else None
  {
    if k > 0 {
      RemoveFirstAt(s[1..], index, k - 1);
      assert s == [s[0]] + s[1..];
    }
  }

  /** What was in the list and is still in it after removing an index. */
  lemma {:induction false} RemoveFirstMembers<T>(s: seq<Entry<T>>, index: int, e: Entry<T>)
    ensures e in RemoveFirst(s, index) ==> e in s
    ensures e in s && e.index != index ==> e in RemoveFirst(s, index)
  {
    if |s| > 0 && s[0].index != index {
      RemoveFirstMembers(s[1..], index, e);
    }
  }

  class Node<T> {
    const index: int
    const data: T
    var next: Node?<T>

    constructor (index: int, data: T, next: Node?<T>)
      ensures this.index == index && this.data == data && this.next == next
    {
      this.index := index;
      this.data := data;
      this.next := next;
    }
  }

  class LinkList<T(==)> {
    var head: Node?<T>
    /** The nodes in order of the list. */
    ghost var spine: seq<Node<T>>

    ghost predicate Valid()
      reads this, spine
    {
      && head == At(spine, 0)
      && (forall i | 0 <= i < |spine| :: spine[i].next == At(spine, i + 1))
      && (forall i, j | 0 <= i < j < |spine| :: spine[i] != spine[j])
    }

    static ghost function At(spine: seq<Node<T>>, i: nat): Node?<T> {
      if i < |spine| then spine[i] else null
    }

    static ghost function EntriesOf(spine: seq<Node<T>>): (r: seq<Entry<T>>)
      ensures |r| == |spine|
    {
      seq(|spine|, i requires 0 <= i < |spine| => Entry(spine[i].index, spine[i].data))
    }

    ghost function Contents(): seq<Entry<T>>
      reads this
    {
      EntriesOf(spine)
    }

    constructor ()
      ensures Valid() && Contents() == [] && fresh(spine)
    {
      head := null;
      spine := [];
    }

    method Add(index: int, data: T)
      requires Valid()
      modifies this
      ensures Valid() && Contents() == [Entry(index, data)] + old(Contents())
      ensures fresh(set n | n in spine && n !in old(spine))
    {
      var node := new Node(index, data, head);
      head := node;
      spine := [node] + spine;
    }

    method UnlinkHead()
      requires Valid() && |spine| > 0
      modifies this
      ensures Valid() && spine == old(spine)[..0] + old(spine)[1..]
    {
      ghost var s := spine;
      head := head.next;
      spine := spine[1..];
      assert forall i | 0 <= i < |spine| :: spine[i] == s[i + 1];
    }

    /** Unlinks the node at position `k`, given the node before it. */
    method Unlink(prev: Node<T>, temp: Node<T>, ghost k: nat)
      requires Valid() && 0 < k < |spine| && prev == spine[k - 1] && temp == spine[k]
      modifies this`spine, prev, temp
      ensures Valid() && spine == old(spine)[..k] + old(spine)[k + 1..]
    {
      ghost var s := spine;
      prev.next := temp.next;
      temp.next := null;
      spine := s[..k] + s[k + 1..];
      SpineWithout(s, k);
      forall i | 0 <= i < |spine|
        ensures spine[i].next == At(spine, i + 1)
      {
        assert i != k - 1 ==> spine[i] != prev;
        assert spine[i] != temp;
      }
    }

    static lemma SpineWithout(s: seq<Node<T>>, k: nat)
      requires k < |s| && forall i, j | 0 <= i < j < |s| :: s[i] != s[j]
      ensures var r := s[..k] + s[k + 1..];
              && (forall i | 0 <= i < |r| :: r[i] == (if i < k then s[i] else s[i + 1]) && r[i] != s[k])
              && (forall i, j | 0 <= i < j < |r| :: r[i] != r[j])
    {
    }

    /** Walks to the first node with that index, keeping the node before it. */
    method Walk(index: int) returns (prev: Node?<T>, temp: Node?<T>, ghost k: nat)
      requires Valid()
      ensures k <= |spine| && temp == At(spine, k) && prev == (if k == 0 then null else spine[k - 1])
      ensures forall j | 0 <= j < k :: spine[j].index != index
      ensures temp != null ==> temp.index == index
    {
      temp, prev, k := head, null, 0;
      while temp != null && temp.index != index
        invariant k <= |spine| && temp == At(spine, k) && prev == (if k == 0 then null else spine[k - 1])
        invariant forall j | 0 <= j < k :: spine[j].index != index
        decreases |spine| - k
      {
        prev := temp;
        temp := temp.next;
        k := k + 1;
      }
    }

    static lemma EntriesWithout(s: seq<Node<T>>, k: nat)
      requires k < |s|
      ensures EntriesOf(s[..k] + s[k + 1..]) == EntriesOf(s)[..k] + EntriesOf(s)[k + 1..]
    {
    }

    /** Unlinks the first node with that index, if there is one. */
    method Remove(index: int)
      requires Valid()
      modifies this, spine
      ensures Valid() && Contents() == RemoveFirst(old(Contents()), index)
      ensures forall n | n in spine :: n in old(spine)
    {
      ghost var s := spine;
      if head != null && head.index == index {
        RemoveFirstAt(Contents(), index, 0);
        UnlinkHead();
        EntriesWithout(s, 0);
        return;
      }
      ghost var k;
      var prev, temp;
      prev, temp, k := Walk(index);
      RemoveFirstAt(Contents(), index, k);
      if temp == null {
        return;
      }
      Unlink(prev, temp, k);
      EntriesWithout(s, k);
    }

    /** The data of the first node with that index. */
    method Get(index: int) returns (r: Option<T>)
      requires Valid()
      ensures r == FindFirst(Contents(), index)
    {
      var current := head;
      ghost var k := 0;
      while current != null
        invariant k <= |spine| && current == At(spine, k)
        invariant forall j | 0 <= j < k :: spine[j].index != index
        decreases |spine| - k
      {
        if current.index == index {
          RemoveFirstAt(Contents(), index, k);
          return Some(current.data);
        }
        current := current.next;
        k := k + 1;
      }
      RemoveFirstAt(Contents(), index, k);
      return None;
    }
  }
}
