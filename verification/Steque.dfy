/**
 The steque: a mutable singly linked list with pointers to its first and last node,
 which carries the pool of segments and the queue of cache requests.
 */
module Steque {
  import opened Options

  class Node<T> {
    var item: T
    var next: Node?<T>

    constructor (item: T, next: Node?<T>)
      ensures this.item == item && this.next == next
    {
      this.item := item;
      this.next := next;
    }
  }

  class Steque<T> {
    var front: Node?<T>
    var back: Node?<T>
    var N: int
    ghost var spine: seq<Node<T>>  // the nodes from front to back

    ghost predicate Valid()
      reads this, spine
    {
      && N == |spine|
      && (forall i, j :: 0 <= i < j < |spine| ==> spine[i] != spine[j])
      && (forall i {:trigger spine[i]} :: 0 <= i < |spine| - 1 ==> spine[i].next == spine[i + 1])
      && if spine == [] then front == null && back == null
         else front == spine[0] && back == spine[|spine| - 1] && back.next == null
    }

    ghost function Contents(): (s: seq<T>)
      reads this, spine
      ensures |s| == |spine|
    {
      seq(|spine|, i requires 0 <= i < |spine| reads this, spine => spine[i].item)
    }

    /** steque_init */
    constructor ()
      ensures Valid() && spine == [] && Contents() == []
    {
      front, back, N, spine := null, null, 0, [];
    }

    /** steque_enqueue */
    method Enqueue(item: T)
      requires Valid()
      modifies this, back
      ensures Valid() && Contents() == old(Contents()) + [item]
      ensures forall n :: n in spine ==> n in old(spine) || fresh(n)
    {
      var node := new Node(item, null);
      if back == null {
        front := node;
      } else {
        back.next := node;
      }
      back := node;
      N := N + 1;
      spine := spine + [node];
    }

    /** steque_push */
    method Push(item: T)
      requires Valid()
      modifies this
      ensures Valid() && Contents() == [item] + old(Contents())
      ensures forall n :: n in spine ==> n in old(spine) || fresh(n)
    {
      var node := new Node(item, front);
      if back == null {
        back := node;
      }
      front := node;
      N := N + 1;
      spine := [node] + spine;
      assert spine[1..] == old(spine);
    }

    /** steque_size */
    method Size() returns (n: int)
      requires Valid()
      ensures n == |Contents()|
    {
      n := N;
    }

    /** steque_isempty */
    method IsEmpty() returns (empty: bool)
      requires Valid()
      ensures empty <==> Contents() == []
    {
      empty := N == 0;
    }

    /** steque_pop: None stands for the exit on underflow. */
    method Pop() returns (ans: Option<T>)
      requires Valid()
      modifies this
      ensures Valid()
      ensures old(Contents()) == [] ==> ans == None && Contents() == []
      ensures old(Contents()) != [] ==> ans == Some(old(Contents())[0]) && Contents() == old(Contents())[1..]
      ensures spine == if old(spine) == [] then [] else old(spine)[1..]
    {
      if front == null {
        return None;
      }
      ans := Some(front.item);
      front := front.next;
      if front == null {
        back := null;
      }
      N := N - 1;
      spine := spine[1..];
    }

    /** steque_cycle: with one node the node is linked to itself and unlinked again. */
    method Cycle()
      requires Valid()
      modifies this, front, back
      ensures Valid() && Contents() == Rotated(old(Contents()), 1)
      ensures forall n :: n in spine <==> n in old(spine)
    {
      if back == null {
        return;
      }
      back.next := front;
      back := front;
      front := front.next;
      back.next := null;
      spine := spine[1..] + [spine[0]];
      RotatedOnce(old(Contents()));
      assert Contents() == old(Contents())[1..] + [old(Contents())[0]];
    }

    /** steque_front */
    method Front() returns (ans: Option<T>)
      requires Valid()
      ensures ans == if Contents() == [] then None else Some(Contents()[0])
    {
      if front == null {
        return None;
      }
      return Some(front.item);
    }

    /** steque_destroy */
    method Destroy()
      requires Valid()
      modifies this
      ensures Valid() && Contents() == []
    {
      var empty := IsEmpty();
      while !empty
        invariant Valid() && (empty <==> Contents() == [])
        decreases |spine|
      {
        var _ := Pop();
        empty := IsEmpty();
      }
    }

    /**
     Following `next` from the front visits the N nodes of the spine, all different, the last being
     `back`, and stops.
     */
    ghost function Follow(k: nat): (n: Node?<T>)
      requires Valid() && k <= |spine|
      reads this, spine
      ensures n == if k < N then spine[k] else null
      ensures k + 1 == N ==> n == back
    {
      if k == 0 then front else Follow(k - 1).next
    }
  }

  // ---------------------------------------------------------------- rotation

  /** k times: the first element moved to the end. */
  function Rotated<T>(s: seq<T>, k: nat): (r: seq<T>)
    ensures |r| == |s|
  {
    if k == 0 || s == [] then s
    else
      var t := Rotated(s, k - 1);
      t[1..] + [t[0]]
  }

  lemma {:induction false} RotatedOnce<T>(s: seq<T>)
    ensures Rotated(s, 1) == if s == [] then s else s[1..] + [s[0]]
  {
    assert Rotated(s, 0) == s;
  }

  lemma {:induction false} RotatedSplits<T>(s: seq<T>, k: nat)
    requires k <= |s|
    ensures Rotated(s, k) == s[k..] + s[..k]
  {
    if k == 0 || s == [] {
      assert s[0..] + s[..0] == s;
    } else {
      RotatedSplits(s, k - 1);
      var t := s[k - 1..] + s[..k - 1];
      assert t[0] == s[k - 1] && t[1..] == s[k..] + s[..k - 1];
      assert s[..k - 1] + [s[k - 1]] == s[..k];
      assert (s[k..] + s[..k - 1]) + [s[k - 1]] == s[k..] + (s[..k - 1] + [s[k - 1]]);
    }
  }

  /** Cycling a steque through all its elements leaves it as it was. */
  lemma {:induction false} FullCycleIsIdentity<T>(s: seq<T>)
    ensures Rotated(s, |s|) == s
  {
    RotatedSplits(s, |s|);
  }
}
