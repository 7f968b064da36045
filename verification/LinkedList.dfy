/** The pointer queue of joint/linked_list.go, proved to be a sequence. */
module LinkedList {
  import opened Wrappers

  class Node<T> {
    var val: T
    var next: Node?<T>

    constructor (val: T)
      ensures this.val == val && next == null
    {
      this.val, next := val, null;
    }
  }

  class List<T> {
    var head: Node?<T>
    var rear: Node?<T>
    ghost var spine: seq<Node<T>>

    ghost predicate Valid()
      reads this, spine
    {
      && (head == null <==> spine == [])
      && (rear == null <==> spine == [])
      && (spine != [] ==> head == spine[0] && rear == spine[|spine| - 1] && rear.next == null)
      && (forall i: nat | i + 1 < |spine| :: spine[i].next == spine[i + 1])
      && (forall i: nat, j: nat | i < j < |spine| :: spine[i] != spine[j])
    }

    ghost function Contents(): (s: seq<T>)
      reads this, spine
      ensures |s| == |spine|
    {
      seq(|spine|, i requires 0 <= i < |spine| reads this, spine => spine[i].val)
    }

    constructor ()
      ensures Valid() && Contents() == [] && spine == []
    {
      head, rear, spine := null, null, [];
    }

    method Push(v: T)
      requires Valid()
      modifies this, spine
      ensures Valid() && Contents() == old(Contents()) + [v]
      ensures fresh(set n | n in spine && n !in old(spine))
    {
      var n := new Node(v);
      if rear == null {
        head := n;
        rear := n;
      } else {
        rear.next := n;
        rear := n;
      }
      spine := spine + [n];
    }

    method Pop() returns (r: Option<T>)
      requires Valid()
      modifies this
      ensures Valid()
      ensures old(Contents()) == [] ==> r == None && Contents() == []
      ensures old(Contents()) != [] ==> r == Some(old(Contents())[0]) && Contents() == old(Contents())[1..]
      ensures spine == [] || (old(spine) != [] && spine == old(spine)[1..])
    {
      if head == null {
        r := None;
      } else {
        var n := head;
        assert |spine| > 1 ==> spine[0] != spine[|spine| - 1] && spine[0].next == spine[1];
        if head == rear {
          head := null;
          rear := null;
        } else {
          head := head.next;
        }
        spine := spine[1..];
        r := Some(n.val);
      }
    }
  }
}
