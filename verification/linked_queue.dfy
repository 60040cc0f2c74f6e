/**
 The singly linked queue of libs/queue.c. Its nodes are linked in place; `Contents` is the sequence
 they spell, and every operation is proved to be the plain sequence operation on it.
 */
module LinkedQueue {

  class QueueNode {
    var next: QueueNode?

    constructor () {
      next := null;
    }
  }

  datatype Status = EOK | EAGAIN

  /** Consecutive nodes are linked, the last one ends the chain, and no node occurs twice. */
  ghost predicate Chained(s: seq<QueueNode>)
    reads s
  {
    && (forall i {:trigger s[i].next} :: 0 <= i < |s| - 1 ==> s[i].next == s[i + 1])
    && (s != [] ==> s[|s| - 1].next == null)
    && (forall i, j :: 0 <= i < j < |s| ==> s[i] != s[j])
  }

  class Queue {
    var head: QueueNode?
    var tail: QueueNode?
    var counter: nat
    ghost var Contents: seq<QueueNode>

    /** No cycle, no wrong end, no wrong counter. */
    ghost predicate Valid()
      reads this, Contents
    {
      && counter == |Contents| && Chained(Contents)
      && (if Contents == [] then head == null && tail == null
          else head == Contents[0] && tail == Contents[|Contents| - 1])
    }

    constructor ()
      ensures Valid() && Contents == []
    {
      head, tail, counter := null, null, 0;
      Contents := [];
    }

    method Enqueue(data: QueueNode)
      requires Valid() && data !in Contents
      modifies this, tail, data
      ensures Valid() && Contents == old(Contents) + [data]
    {
      if head == null {
        head, tail := data, data;
        counter := 1;
        data.next := null;
      } else {
        tail.next := data;
        tail := data;
        counter := counter + 1;
        data.next := null;
      }
      Contents := Contents + [data];
    }

    method Dequeue() returns (status: Status, data: QueueNode?)
      requires Valid()
      modifies this, head
      ensures Valid()
      ensures old(Contents) == [] ==> status == EAGAIN && data == null && Contents == []
      ensures old(Contents) != [] ==>
                status == EOK && data == old(Contents)[0] && Contents == old(Contents)[1..] && data.next == null
    {
      if counter == 0 { return EAGAIN, null; }
      ghost var s := Contents;
      data := head;
      head := head.next;
      data.next := null;
      counter := counter - 1;
      if counter == 0 { tail := null; }
      Contents := s[1..];
      assert forall i :: 0 <= i < |Contents| ==> Contents[i] == s[i + 1];
      status := EOK;
    }

    /** The head moves to the back. */
    method Roll()
      requires Valid()
      modifies this, head, tail
      ensures Valid()
      ensures Contents == if |old(Contents)| > 1 then old(Contents)[1..] + [old(Contents)[0]] else old(Contents)
    {
      if counter > 1 {
        ghost var s := Contents;
        tail.next := head;
        head := head.next;
        tail := tail.next;
        tail.next := null;
        Contents := s[1..] + [s[0]];
        assert forall i :: 0 <= i < |s| ==> Contents[i] == s[if i + 1 < |s| then i + 1 else 0];
      }
    }

    /** Linking after a node of the queue, or in front of all when `after` is null. */
    method Insert(data: QueueNode, after: QueueNode?, ghost k: nat)
      requires Valid() && data !in Contents
      requires after != null ==> k < |Contents| && Contents[k] == after
      modifies this, tail, data, after
      ensures Valid()
      ensures Contents == if after == null then [data] + old(Contents)
                          else old(Contents)[..k + 1] + [data] + old(Contents)[k + 1..]
    {
      if counter == 0 {
        Enqueue(data);
      } else if after == null {
        data.next := head;
        head := data;
        counter := counter + 1;
        ghost var s := Contents;
        Contents := [data] + s;
        assert forall i :: 1 <= i < |Contents| ==> Contents[i] == s[i - 1];
      } else {
        ghost var s := Contents;
        assert s[k].next == null <==> k + 1 == |s|;
        data.next := after.next;
        after.next := data;
        counter := counter + 1;
        if data.next == null { tail := data; }
        Contents := s[..k + 1] + [data] + s[k + 1..];
        assert forall i :: 0 <= i < |Contents| && i != k + 1 ==> Contents[i] == s[if i <= k then i else i - 1];
      }
    }
  }

  /** Linking a node that another queue still holds cuts that queue behind the node. */
  method EnqueueCuts(queue: Queue, other: Queue, data: QueueNode, ghost k: nat)
    requires queue.Valid() && other.Valid() && queue != other && data !in queue.Contents
    requires k < |other.Contents| - 1 && other.Contents[k] == data
    modifies queue, queue.tail, data
    ensures queue.Valid() && queue.Contents == old(queue.Contents) + [data]
    ensures other.Contents == old(other.Contents) && data.next == null && !other.Valid()
  {
    queue.Enqueue(data);
    assert queue.Contents[|queue.Contents| - 1] == data;
  }
}
