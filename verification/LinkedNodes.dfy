/** The nodes of a singly linked list, and what it means for them to be one. */
module LinkedNodes {

  class Node<T> {
    const data: T
    var next: Node?<T>

    constructor (data: T)
      ensures this.data == data && next == null
    {
      this.data, next := data, null;
    }
  }

  /** The nodes `ns`, in this order, are the list: no node twice, the last one ends it. */
  ghost predicate Linked<T>(ns: seq<Node<T>>)
    reads ns
  {
    && |ns| > 0
    && (forall i, j :: 0 <= i < j < |ns| ==> ns[i] != ns[j])
    && (forall i :: 0 <= i < |ns| - 1 ==> ns[i].next == ns[i + 1])
    && ns[|ns| - 1].next == null
  }

  ghost predicate Within<T>(ns: seq<Node<T>>, all: set<Node<T>>) {
    forall i :: 0 <= i < |ns| ==> ns[i] in all
  }
}
