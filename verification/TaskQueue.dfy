/** The FIFO queue of the thread pool (Code/liuting1/lt_thread_pool/queue.c): a singly linked
    list behind a dummy head, with a link to its last node and a size. */
module TaskQueue {
  import opened LinkedNodes

  class Queue<T> {
    var head: Node<T>
    var end: Node<T>
    var size: nat
    ghost var nodes: seq<Node<T>>  // the dummy first, then one node per element

    ghost predicate Valid()
      reads this, nodes
    {
      |nodes| == size + 1 && Linked(nodes) && head == nodes[0] && end == nodes[size]
    }

    ghost function Contents(): (s: seq<T>)
      requires Valid()
      reads this, nodes
      ensures |s| == size
    {
      seq(size, i requires 0 <= i < size reads this, nodes requires Valid() => nodes[i + 1].data)
    }

    /** `Queue_init`; `blank` is whatever the dummy's uninitialised cell holds. */
    constructor (blank: T)
      ensures Valid() && fresh(nodes)
      ensures Contents() == []
    {
      var n := new Node(blank);
      head, end, size, nodes := n, n, 0, [n];
    }

    /** `Queue_push` */
    method Push(x: T)
      requires Valid()
      modifies this, nodes
      ensures Valid() && Contents() == old(Contents()) + [x]
      ensures |nodes| == |old(nodes)| + 1 && nodes[..|nodes| - 1] == old(nodes) && fresh(end)
      ensures head == old(head)
    {
      var qnew := new Node(x);
      end.next := qnew;
      end := qnew;
      size := size + 1;
      nodes := nodes + [qnew];
    }

    /** `Queue_pop`. The source dereferences the first node, so the queue must not be empty. */
    method Pop() returns (x: T)
      requires Valid() && size > 0
      modifies this, nodes
      ensures Valid() && old(Contents()) == [x] + Contents()
      ensures nodes == old(nodes)[..1] + old(nodes)[2..]
      ensures head == old(head)
    {
      assert nodes[0].next == nodes[1];
      var p := head.next;
      x := p.data;
      assert size > 1 ==> nodes[1].next == nodes[2];
      head.next := p.next;
      if size == 1 {
        end := head;
      }
      size := size - 1;
      nodes := nodes[..1] + nodes[2..];
    }

    /** `Queue_size` */
    function Size(): (n: nat)
      requires Valid()
      reads this, nodes
      ensures n == |Contents()|
    {
      size
    }
  }
}
