/** src/utils/util_list.c: a singly linked list that counts its nodes. */
module LinkedLists {

  class Node<T> {
    var item: T
    var next: Node?<T>

    constructor (item: T, next: Node?<T>)
      ensures this.item == item && this.next == next
    {
      this.item := item;
      this.next := next;
    }
  }

  ghost predicate NoRepeats<T>(s: seq<T>) {
    s == [] || (s[0] !in s[1..] && NoRepeats(s[1..]))
  }

  lemma {:induction false} NoRepeatsMeans<T>(s: seq<T>)
    ensures NoRepeats(s) <==> forall i, j :: 0 <= i < j < |s| ==> s[i] != s[j]
  {
    if s == [] {
    } else {
      NoRepeatsMeans(s[1..]);
      if NoRepeats(s) {
        forall i, j | 0 <= i < j < |s| ensures s[i] != s[j] {
          assert s[j] == s[1..][j - 1];
          if i > 0 { assert s[i] == s[1..][i - 1]; }
        }
      }
    }
  }

  /** All but the element at `i`. */
  function Without<T>(s: seq<T>, i: nat): seq<T>
    requires i < |s|
  {
    s[..i] + s[i + 1..]
  }

  lemma WithoutMeans<T>(s: seq<T>, i: nat)
    requires i < |s|
    ensures |Without(s, i)| == |s| - 1
    ensures forall k :: 0 <= k < |s| - 1 ==> Without(s, i)[k] == s[if k < i then k else k + 1]
  {
  }

  lemma NoRepeatsWithout<T>(s: seq<T>, i: nat)
    requires NoRepeats(s) && i < |s|
    ensures NoRepeats(Without(s, i))
  {
    NoRepeatsMeans(s);
    NoRepeatsMeans(Without(s, i));
  }

  /** From `head`, following `next`, are exactly the nodes of `chain`. */
  ghost predicate Chain<T>(head: Node?<T>, chain: seq<Node<T>>)
    reads chain
  {
    if chain == [] then head == null else head == chain[0] && Chain(chain[0].next, chain[1..])
  }

  ghost function NodeIn<T>(chain: seq<Node<T>>, i: nat): Node?<T> {
    if i < |chain| then chain[i] else null
  }

  lemma {:induction false} ChainMeans<T>(head: Node?<T>, chain: seq<Node<T>>)
    ensures Chain(head, chain) <==>
      head == NodeIn(chain, 0) &&
      forall i {:trigger chain[i].next} :: 0 <= i < |chain| ==> chain[i].next == NodeIn(chain, i + 1)
    decreases |chain|
  {
    if chain == [] {
    } else {
      ChainMeans(chain[0].next, chain[1..]);
      forall i | 0 <= i < |chain| && Chain(head, chain) ensures chain[i].next == NodeIn(chain, i + 1) {
        if i > 0 { assert chain[i] == chain[1..][i - 1]; }
      }
    }
  }

  class List<T> {
    var size: nat
    var head: Node?<T>
    /** The chain from the head. */
    ghost var nodes: seq<Node<T>>

    /** The chain is acyclic and ends, and the size field is its length. */
    ghost predicate Valid()
      reads this, nodes
    {
      && size == |nodes|
      && NoRepeats(nodes)
      && Chain(head, nodes)
    }

    ghost function NodeAt(i: nat): Node?<T>
      reads this
    {
      NodeIn(nodes, i)
    }

    ghost function Items(): (items: seq<T>)
      reads this, nodes
      ensures |items| == |nodes|
      ensures forall i :: 0 <= i < |nodes| ==> items[i] == nodes[i].item
    {
      seq(|nodes|, i requires 0 <= i < |nodes| reads this, nodes => nodes[i].item)
    }

    /** The nodes in terms of the fields. */
    lemma Follow()
      requires Valid()
      ensures head == NodeAt(0) && size == |Items()|
      ensures forall i {:trigger nodes[i].next} :: 0 <= i < |nodes| ==> nodes[i].next == NodeAt(i + 1)
    {
      ChainMeans(head, nodes);
    }

    constructor ()
      ensures Valid() && nodes == [] && Items() == []
    {
      size, head, nodes := 0, null, [];
    }

    method PushItem(item: T)
      requires Valid()
      modifies this
      ensures Valid() && Items() == [item] + old(Items())
      ensures |nodes| > 0 && fresh(nodes[0]) && nodes[1..] == old(nodes)
    {
      var n := new Node(item, head);
      assert n !in nodes && ([n] + nodes)[1..] == nodes;
      head := n;
      size := size + 1;
      nodes := [n] + nodes;
    }

    /** Without effect on an empty list. */
    method RemoveHead()
      requires Valid()
      modifies this
      ensures Valid()
      ensures nodes == if old(nodes) == [] then [] else old(nodes)[1..]
      ensures Items() == if old(Items()) == [] then [] else old(Items())[1..]
    {
      if head == null {
        return;
      }
      head := head.next;
      size := size - 1;
      nodes := nodes[1..];
    }

    /** Without effect on the last node. */
    method RemoveNextNode(cur: Node<T>, ghost i: nat)
      requires Valid() && i < |nodes| && nodes[i] == cur
      modifies this, cur`next
      ensures Valid()
      ensures nodes == if i + 1 < |old(nodes)| then Without(old(nodes), i + 1) else old(nodes)
      ensures Items() == if i + 1 < |old(nodes)| then Without(old(Items()), i + 1) else old(Items())
    {
      hide NoRepeats;
      hide Chain;
      hide Without;
      Follow();
      if cur.next == null {
        return;
      }
      ghost var items, before := Items(), nodes;
      NoRepeatsMeans(before);
      NoRepeatsWithout(before, i + 1);
      WithoutMeans(before, i + 1);
      WithoutMeans(items, i + 1);
      cur.next := cur.next.next;
      size := size - 1;
      nodes := Without(before, i + 1);
      ChainMeans(head, nodes);
    }
  }
}
