/** The FIFO of heap nodes with a front and a rear pointer, shared by all the queues. */
module LinkQueue {
  import opened Wrappers

  class QueueNode<T> {
    const data: T
    var next: QueueNode?<T>

    constructor (data: T)
      ensures this.data == data && next == null
    {
      this.data := data;
      next := null;
    }
  }

  class Queue<T> {
    var front: QueueNode?<T>
    var rear: QueueNode?<T>
    ghost var spine: seq<QueueNode<T>>

    ghost predicate Valid()
      reads this, spine
    {
      && front == At(spine, 0) && rear == At(spine, |spine| - 1)
      && (forall i | 0 <= i < |spine| :: spine[i].next == At(spine, i + 1))
      && (forall i, j | 0 <= i < j < |spine| :: spine[i] != spine[j])
    }

    static ghost function At(spine: seq<QueueNode<T>>, i: int): QueueNode?<T> {
      if 0 <= i < |spine| then spine[i] else null
    }

    ghost function Contents(): (c: seq<T>)
      reads this
      ensures |c| == |spine|
    {
      seq(|spine|, i requires 0 <= i < |spine| reads this => spine[i].data)
    }

    constructor ()
      ensures Valid() && Contents() == []
    {
      front, rear, spine := null, null, [];
    }

    method Push(data: T)
      requires Valid()
      modifies this, spine
      ensures Valid() && Contents() == old(Contents()) + [data]
      ensures forall n | n in spine :: n in old(spine) || fresh(n)
    {
      var node := new QueueNode(data);
      if rear == null {
        front := node;
        rear := node;
      } else {
        rear.next := node;
        rear := node;
      }
      spine := spine + [node];
    }

    /** Takes the oldest element; an empty queue has nothing to give and is left alone. */
    method Pop() returns (r: Option<T>)
      requires Valid()
      modifies this
      ensures Valid()
      ensures r == (if old(Contents()) == [] then None else Some(old(Contents())[0]))
      ensures Contents() == if old(Contents()) == [] then [] else old(Contents())[1..]
      ensures forall n | n in spine :: n in old(spine)
    {
      if front == null {
        return None;
      }
      ghost var s := spine;
      r := Some(front.data);
      front := front.next;
      spine := spine[1..];
      if front == null {
        rear := null;
      }
      assert forall i | 0 <= i < |spine| :: spine[i] == s[i + 1];
      assert |spine| > 0 ==> spine[|spine| - 1] == s[|s| - 1];
    }
  }
}
