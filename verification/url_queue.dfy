/** The singly linked FIFO queue of the crawler. */
module LinkedQueue {

  class Elem<T> {
    const data: T
    var next: Elem?<T>

    constructor (data: T, next: Elem?<T>)
      ensures this.data == data && this.next == next
    {
      this.data, this.next := data, next;
    }
  }

  class QueueHead<T> {
    var head: Elem?<T>
    var tail: Elem?<T>
    var size: int
    ghost var spine: seq<Elem<T>>
    ghost var Repr: set<object>

    /** The chain from head is the spine and ends with null; tail means something only while head is not null. */
    ghost predicate Valid()
      reads this, Repr
      ensures Valid() ==> this in Repr
    {
      && this in Repr
      && size == |spine|
      && (forall i :: 0 <= i < |spine| ==> spine[i] in Repr)
      && (head == null <==> |spine| == 0)
      && (|spine| > 0 ==> head == spine[0] && tail == spine[|spine| - 1])
      && (forall i :: 0 <= i < |spine| - 1 ==> spine[i].next == spine[i + 1])
      && (|spine| > 0 ==> spine[|spine| - 1].next == null)
      && (forall i, j :: 0 <= i < j < |spine| ==> spine[i] != spine[j])
    }

    /** A chain of different elements that ends with null. */
    ghost predicate Chained(es: seq<Elem<T>>)
      reads es
    {
      && |es| > 0 && es[|es| - 1].next == null
      && (forall i :: 0 <= i < |es| - 1 ==> es[i].next == es[i + 1])
      && (forall i, j :: 0 <= i < j < |es| ==> es[i] != es[j])
    }

    ghost function Data(es: seq<Elem<T>>): (s: seq<T>)
      ensures |s| == |es|
    {
      seq(|es|, i requires 0 <= i < |es| => es[i].data)
    }

    /** The queued data, oldest first. */
    ghost function Contents(): (s: seq<T>)
      reads this
      ensures |s| == |spine|
    {
      Data(spine)
    }

    constructor ()
      ensures Valid() && fresh(Repr) && Contents() == []
    {
      head, tail, size, spine := null, null, 0, [];
      Repr := {this};
    }

    method Put(d: T)
      requires Valid()
      modifies Repr
      ensures Valid() && fresh(Repr - old(Repr)) && old(Repr) <= Repr
      ensures Contents() == old(Contents()) + [d]
    {
      if head == null {
        head := new Elem<T>(d, head);
        tail := head;
        size := size + 1;
        spine := [head];
        Repr := Repr + {head};
        return;
      }
      var e := new Elem<T>(d, tail.next);
      tail.next := e;
      tail := e;
      size := size + 1;
      spine := spine + [e];
      Repr := Repr + {e};
    }

    method Get() returns (d: T)
      requires Valid() && size > 0
      modifies Repr
      ensures Valid() && Repr == old(Repr)
      ensures old(Contents()) == [d] + Contents()
    {
      var t := head.next;
      d := head.data;
      assert |spine| > 1 ==> t == spine[1];
      head := t;
      size := size - 1;
      spine := spine[1..];
    }

    /** The links of the chain more, put after the elements of this queue. */
    method Hang(h: Elem<T>, t: Elem<T>, ghost more: seq<Elem<T>>)
      requires Valid() && Chained(more) && h == more[0] && t == more[|more| - 1]
      requires forall i :: 0 <= i < |more| ==> more[i] !in Repr
      modifies this`head, this`tail, spine
      ensures head == (spine + more)[0] && tail == t && Chained(spine + more)
    {
      if head == null {
        head := h;
      } else {
        tail.next := h;
      }
      tail := t;
    }

    /** The chain more, from h to t, goes on after the elements of this queue. */
    method Attach(h: Elem<T>, t: Elem<T>, n: int, ghost more: seq<Elem<T>>)
      requires Valid() && Chained(more) && n == |more| && h == more[0] && t == more[|more| - 1]
      requires forall i :: 0 <= i < |more| ==> more[i] !in Repr
      modifies Repr
      ensures Valid() && Repr == old(Repr) + set e | e in more
      ensures spine == old(spine) + more && Contents() == old(Contents()) + Data(more)
    {
      Hang(h, t, more);
      ghost var all := spine + more;
      size := size + n;
      spine := all;
      Repr := Repr + set e | e in more;
      assert Chained(all);
    }

    /** Appends the elements of q2 to this queue and empties q2, whatever either of them holds. */
    method JoinInit(q2: QueueHead<T>)
      requires Valid() && q2.Valid() && Repr !! q2.Repr
      modifies Repr, q2.Repr
      ensures Valid() && q2.Valid() && fresh(Repr - old(Repr) - old(q2.Repr)) && old(Repr) <= Repr
      ensures Repr !! q2.Repr && q2.Repr == {q2}
      ensures Contents() == old(Contents()) + old(q2.Contents()) && q2.Contents() == []
    {
      if q2.head == null {
        q2.Repr := {q2};
        return;
      }
      Attach(q2.head, q2.tail, q2.size, q2.spine);
      q2.Clear();
    }

    method Clear()
      modifies this
      ensures Valid() && Repr == {this} && Contents() == []
    {
      head, tail := null, null;
      size := 0;
      spine := [];
      Repr := {this};
    }
  }
}
