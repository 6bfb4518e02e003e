/** The linked list of Lecture9/cond_variable/main.c, updated in place. */
module MessageQueue {

  class Message {
    var data: int
    var next: Message?

    /** Which producer allocated the message. */
    ghost const maker: nat

    constructor (data: int, ghost maker: nat)
      ensures this.data == data && next == null && this.maker == maker
    {
      this.data := data;
      next := null;
      this.maker := maker;
    }
  }

  class MessageList {
    var workq: Message?

    /** The nodes reachable from `workq`, in order; distinct, so the list has no cycle. */
    ghost var spine: seq<Message>

    ghost predicate Valid()
      reads this, spine
    {
      && (spine == [] ==> workq == null)
      && (spine != [] ==> workq == spine[0] && spine[|spine| - 1].next == null)
      && (forall k {:trigger spine[k].next} :: 0 <= k < |spine| - 1 ==> spine[k].next == spine[k + 1])
      && (forall j, k :: 0 <= j < k < |spine| ==> spine[j] != spine[k])
    }

    ghost function Contents(): (q: seq<int>)
      reads this, spine
      ensures |q| == |spine|
    {
      seq(|spine|, k requires 0 <= k < |spine| reads this, spine => spine[k].data)
    }

    constructor ()
      ensures Valid() && spine == []
    {
      workq := null;
      spine := [];
    }

    /** Walk to the last node and link the new one behind it. */
    method Append(newMessage: Message)
      requires Valid() && newMessage !in spine && newMessage.next == null
      modifies this, spine
      ensures Valid() && spine == old(spine) + [newMessage]
      ensures Contents() == old(Contents()) + [newMessage.data]
      ensures forall m :: m in spine ==> m.data == old(m.data)
    {
      if workq == null {
        workq := newMessage;
      } else {
        var last: Message := workq;
        ghost var k := 0;
        while last.next != null
          invariant 0 <= k < |spine| && last == spine[k]
          decreases |spine| - k
        {
          last := last.next;
          k := k + 1;
        }
        assert k == |spine| - 1;
        last.next := newMessage;
      }
      spine := spine + [newMessage];
    }

    /** Unlink the first node. The caller must know there is one. */
    method TakeFirst() returns (mp: Message)
      requires Valid() && spine != []
      modifies this
      ensures Valid() && mp == old(spine[0]) && mp !in spine && spine == old(spine[1..])
      ensures mp.data == old(Contents())[0] && Contents() == old(Contents())[1..]
    {
      mp := workq;
      workq := mp.next;
      spine := spine[1..];
    }
  }
}
