/**
 The doubly linked list of libs/list.c. Its nodes are linked both ways in place; `Contents` is the
 sequence they spell.
 */
module LinkedList {

  class ListNode {
    var prev: ListNode?
    var next: ListNode?

    constructor () {
      prev, next := null, null;
    }
  }

  datatype Status = EOK | EINVAL

  /** The node at position `i`, or null outside the list. */
  ghost function At(s: seq<ListNode>, i: int): ListNode? {
    if 0 <= i < |s| then s[i] else null
  }

  /** Every node points at its neighbours, and no node occurs twice. */
  ghost predicate Chained(s: seq<ListNode>)
    reads s
  {
    && (forall i {:trigger s[i].next} :: 0 <= i < |s| ==> s[i].next == At(s, i + 1))
    && (forall i {:trigger s[i].prev} :: 0 <= i < |s| ==> s[i].prev == At(s, i - 1))
    && Distinct(s)
  }

  ghost predicate Distinct(s: seq<ListNode>) {
    forall i, j :: 0 <= i < j < |s| ==> s[i] != s[j]
  }

  /** Links that skip from position `k - 1` to `data` and on to position `k`. */
  lemma Inserted(s: seq<ListNode>, k: nat, data: ListNode)
    requires k <= |s| && Distinct(s) && data !in s
    requires forall i {:trigger s[i].next} :: 0 <= i < |s| ==> s[i].next == if i == k - 1 then data else At(s, i + 1)
    requires forall i {:trigger s[i].prev} :: 0 <= i < |s| ==> s[i].prev == if i == k then data else At(s, i - 1)
    requires data.next == At(s, k) && data.prev == At(s, k - 1)
    ensures Chained(s[..k] + [data] + s[k..])
  {
    var t := s[..k] + [data] + s[k..];
    assert forall i :: 0 <= i < |t| ==> t[i] == if i < k then s[i] else if i == k then data else s[i - 1];
  }

  /** Links that skip position `k`. */
  lemma Removed(s: seq<ListNode>, k: nat)
    requires k < |s| && Distinct(s)
    requires forall i {:trigger s[i].next} :: 0 <= i < |s| && i != k ==>
        s[i].next == At(s, if i == k - 1 then k + 1 else i + 1)
    requires forall i {:trigger s[i].prev} :: 0 <= i < |s| && i != k ==>
        s[i].prev == At(s, if i == k + 1 then k - 1 else i - 1)
    ensures Chained(s[..k] + s[k + 1..])
  {
    var t := s[..k] + s[k + 1..];
    assert forall i :: 0 <= i < |t| ==> t[i] == if i < k then s[i] else s[i + 1];
  }

  class List {
    var head: ListNode?
    var tail: ListNode?
    var counter: nat
    ghost var Contents: seq<ListNode>

    ghost predicate Valid()
      reads this, Contents
    {
      && counter == |Contents| && Chained(Contents)
      && head == At(Contents, 0) && tail == At(Contents, |Contents| - 1)
    }

    constructor ()
      ensures Valid() && Contents == []
    {
      head, tail, counter := null, null, 0;
      Contents := [];
    }

    /** Linking behind `prev`, the node before position `k`, or in front of all when it is null. */
    method Add(prev: ListNode?, data: ListNode, ghost k: nat)
      requires Valid() && data !in Contents && k <= |Contents| && prev == At(Contents, k - 1)
      modifies this, data, Contents
      ensures Valid() && Contents == old(Contents)[..k] + [data] + old(Contents)[k..]
    {
      ghost var s := Contents;
      if counter == 0 {
        head, tail, counter := data, data, 1;
        data.prev, data.next := null, null;
      } else {
        data.prev := prev;
        counter := counter + 1;
        if prev == null {
          data.next := head;
          head.prev := data;
          head := data;
        } else if prev == tail {
          data.next := null;
          tail.next := data;
          tail := data;
        } else {
          data.next := prev.next;
          prev.next := data;
          data.next.prev := data;
        }
      }
      Inserted(s, k, data);
      Contents := s[..k] + [data] + s[k..];
    }

    method Remove(data: ListNode, ghost k: nat) returns (status: Status)
      requires Valid() && (Contents != [] ==> k < |Contents| && Contents[k] == data)
      modifies this, data, Contents
      ensures Valid()
      ensures old(Contents) == [] ==> status == EINVAL && Contents == []
      ensures old(Contents) != [] ==> status == EOK && Contents == old(Contents)[..k] + old(Contents)[k + 1..]
      ensures status == EOK ==> data.prev == null && data.next == null
    {
      if counter == 0 { return EINVAL; }
      ghost var s := Contents;
      counter := counter - 1;
      if head == data { head := data.next; }
      if tail == data { tail := data.prev; }
      if data.prev != null { data.prev.next := data.next; }
      if data.next != null { data.next.prev := data.prev; }
      data.prev, data.next := null, null;
      Removed(s, k);
      Contents := s[..k] + s[k + 1..];
      status := EOK;
    }
  }
}
