/** The stack-queue of project3/steque.c: singly linked nodes between front and back. */
module Steque {
  import opened Wrappers
  import opened Rotation

  class Node<T> {
    var item: T
    var next: Node?<T>

    constructor (item: T, next: Node?<T>)
      ensures this.item == item && this.next == next
    {
      this.item, this.next := item, next;
    }
  }

  class Steque<T> {
    var front: Node?<T>
    var back: Node?<T>
    var N: int

    /** The nodes from front to back, the items they carry, and the objects they may be. */
    ghost var nodes: seq<Node<T>>
    ghost var contents: seq<T>
    ghost var repr: set<Node<T>>

    ghost predicate Valid()
      reads this, repr
    {
      && (forall i :: 0 <= i < |nodes| ==> nodes[i] in repr)
      && N == |nodes| == |contents|
      && (front == null <==> nodes == []) && (back == null <==> nodes == [])
      && (nodes != [] ==> front == nodes[0] && back == nodes[|nodes| - 1])
      && (forall i :: 0 <= i < |nodes| ==> nodes[i].item == contents[i])
      && (forall i {:trigger nodes[i].next} :: 0 <= i < |nodes| - 1 ==> nodes[i].next == nodes[i + 1])
      && (nodes != [] ==> nodes[|nodes| - 1].next == null)
      && (forall i, j :: 0 <= i < j < |nodes| ==> nodes[i] != nodes[j])
    }

    constructor ()
      ensures Valid() && contents == [] && repr == {}
    {
      front, back, N := null, null, 0;
      nodes, contents, repr := [], [], {};
    }

    method Enqueue(item: T)
      requires Valid()
      modifies this, repr
      ensures Valid() && contents == old(contents) + [item]
      ensures fresh(repr - old(repr))
    {
      var node := new Node(item, null);
      if back == null {
        front := node;
      } else {
        back.next := node;
      }
      back := node;
      N := N + 1;
      nodes, contents, repr := nodes + [node], contents + [item], repr + {node};
    }

    method Push(item: T)
      requires Valid()
      modifies this
      ensures Valid() && contents == [item] + old(contents)
      ensures fresh(repr - old(repr))
    {
      var node := new Node(item, front);
      if back == null {
        back := node;
      }
      front := node;
      N := N + 1;
      nodes, contents, repr := [node] + nodes, [item] + contents, repr + {node};
    }

    method Size() returns (n: int)
      requires Valid()
      ensures n == |contents|
    {
      n := N;
    }

    method IsEmpty() returns (empty: bool)
      requires Valid()
      ensures empty <==> contents == []
    {
      empty := N == 0;
    }

    /** None stands for the underflow that ends the process. */
    method Pop() returns (r: Option<T>)
      requires Valid()
      modifies this
      ensures Valid() && repr == old(repr)
      ensures old(contents) == [] ==> r == None && contents == []
      ensures old(contents) != [] ==> r == Some(old(contents)[0]) && contents == old(contents)[1..]
    {
      if front == null {
        return None;
      }
      r := Some(front.item);
      front := front.next;
      if front == null {
        back := null;
      }
      N := N - 1;
      nodes, contents := nodes[1..], contents[1..];
    }

    /** Relinks the front node behind the back one; a single node points to itself for a moment. */
    method Cycle()
      requires Valid()
      modifies this, repr
      ensures Valid() && contents == RotateLeft(old(contents))
      ensures repr == old(repr)
    {
      if back == null {
        return;
      }
      back.next := front;
      back := front;
      front := front.next;
      back.next := null;
      nodes, contents := RotateLeft(nodes), RotateLeft(contents);
    }

    /** None stands for the underflow that ends the process. */
    method Front() returns (r: Option<T>)
      requires Valid()
      ensures r == if contents == [] then None else Some(contents[0])
    {
      r := if front == null then None else Some(front.item);
    }

    method Destroy()
      requires Valid()
      modifies this
      ensures Valid() && contents == [] && repr == old(repr)
    {
      var empty := IsEmpty();
      while !empty
        invariant Valid() && repr == old(repr) && (empty <==> contents == [])
        decreases |contents|
      {
        var item := Pop();
        empty := IsEmpty();
      }
    }
  }
}
