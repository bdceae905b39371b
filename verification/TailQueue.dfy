/** queue.h, TAILQ: a doubly linked tail queue whose back links are addresses of `next` fields.
    A head and an entry have the same two-pointer layout, so both are a `Link` here, and the
    address of a link's `next` field is the link itself. */
module TailQueue {

  class Link {
    /** `tqe_next`, or `tqh_first` of a head. */
    var next: Link?
    /** `tqe_prev`, or `tqh_last` of a head. */
    var prev: Link?

    constructor ()
      ensures next == null && prev == null
    {
      next, prev := null, null;
    }
  }

  /** `chain[0]` is the head, the rest are the elements in order. */
  ghost predicate Linked(chain: seq<Link>)
    reads chain
  {
    && |chain| > 0
    && (forall i, j :: 0 <= i < j < |chain| ==> chain[i] != chain[j])
    && (forall i {:trigger chain[i].next} :: 0 <= i < |chain| - 1 ==> chain[i].next == chain[i + 1])
    && (forall i {:trigger chain[i].prev} :: 0 < i < |chain| ==> chain[i].prev == chain[i - 1])
    && chain[|chain| - 1].next == null
    && chain[0].prev == chain[|chain| - 1]
  }

  /** A head leads to one chain only. */
  lemma {:induction false} LinkedAgree(a: seq<Link>, b: seq<Link>, i: nat)
    requires Linked(a) && Linked(b) && a[0] == b[0] && i < |a|
    ensures i < |b| && a[i] == b[i]
  {
    if i > 0 {
      LinkedAgree(a, b, i - 1);
      assert a[i - 1].next == a[i];
    }
  }

  lemma LinkedUnique(a: seq<Link>, b: seq<Link>)
    requires Linked(a) && Linked(b) && a[0] == b[0]
    ensures a == b
  {
    LinkedAgree(a, b, |a| - 1);
    LinkedAgree(b, a, |b| - 1);
    forall i | 0 <= i < |a| ensures a[i] == b[i] {
      LinkedAgree(a, b, i);
    }
  }

  /** `chain` with `elm` right after its link number `k`. */
  ghost function Inserted(chain: seq<Link>, k: nat, elm: Link): seq<Link>
    requires k < |chain|
  {
    chain[..k + 1] + [elm] + chain[k + 1..]
  }

  ghost function Removed(chain: seq<Link>, k: nat): seq<Link>
    requires 0 < k < |chain|
  {
    chain[..k] + chain[k + 1..]
  }

  /** The link whose `prev` points at link number `k`: its successor, or the head. */
  ghost function After(chain: seq<Link>, k: nat): Link
    requires k < |chain|
  {
    if k + 1 < |chain| then chain[k + 1] else chain[0]
  }

  /** The pointers of `chain` are right except around the gap behind link number `k`. */
  ghost predicate LinkedBut(chain: seq<Link>, k: nat)
    requires k < |chain|
    reads chain
  {
    && (forall i, j :: 0 <= i < j < |chain| ==> chain[i] != chain[j])
    && (forall i {:trigger chain[i].next} :: 0 <= i < |chain| - 1 && i != k ==> chain[i].next == chain[i + 1])
    && (forall i {:trigger chain[i].prev} :: 0 < i < |chain| && i != k + 1 ==> chain[i].prev == chain[i - 1])
    && (k + 1 < |chain| ==> chain[|chain| - 1].next == null && chain[0].prev == chain[|chain| - 1])
  }

  lemma LinkedInserted(chain: seq<Link>, k: nat, elm: Link)
    requires k < |chain| && LinkedBut(chain, k) && elm !in chain
    requires chain[k].next == elm && elm.prev == chain[k]
    requires elm.next == if k + 1 < |chain| then chain[k + 1] else null
    requires After(chain, k).prev == elm
    ensures Linked(Inserted(chain, k, elm))
  {
  }

  method Init(head: Link)
    modifies head
    ensures Linked([head])
  {
    head.next := null;
    head.prev := head;
  }

  method InsertHead(head: Link, elm: Link, ghost chain: seq<Link>)
    requires Linked(chain) && chain[0] == head && elm !in chain
    modifies chain, elm
    ensures Linked(Inserted(chain, 0, elm))
  {
    elm.next := head.next;
    if elm.next != null {
      assert elm.next == chain[1];
      head.next.prev := elm;
    } else {
      assert |chain| == 1;
      head.prev := elm;
    }
    head.next := elm;
    elm.prev := head;
    LinkedInserted(chain, 0, elm);
  }

  method InsertTail(head: Link, elm: Link, ghost chain: seq<Link>)
    requires Linked(chain) && chain[0] == head && elm !in chain
    modifies chain, elm
    ensures Linked(Inserted(chain, |chain| - 1, elm)) && Inserted(chain, |chain| - 1, elm) == chain + [elm]
  {
    elm.next := null;
    elm.prev := head.prev;
    head.prev.next := elm;
    head.prev := elm;
    LinkedInserted(chain, |chain| - 1, elm);
  }

  method InsertAfter(head: Link, listelm: Link, elm: Link, ghost chain: seq<Link>, ghost k: nat)
    requires Linked(chain) && chain[0] == head && elm !in chain
    requires 0 < k < |chain| && chain[k] == listelm
    modifies chain, elm
    ensures Linked(Inserted(chain, k, elm))
  {
    elm.next := listelm.next;
    if elm.next != null {
      assert elm.next == chain[k + 1];
      elm.next.prev := elm;
    } else {
      assert k == |chain| - 1;
      head.prev := elm;
    }
    listelm.next := elm;
    elm.prev := listelm;
    LinkedInserted(chain, k, elm);
  }

  method InsertBefore(listelm: Link, elm: Link, ghost chain: seq<Link>, ghost k: nat)
    requires Linked(chain) && elm !in chain
    requires 0 < k < |chain| && chain[k] == listelm
    modifies chain, elm
    ensures Linked(Inserted(chain, k - 1, elm))
  {
    elm.prev := listelm.prev;
    elm.next := listelm;
    listelm.prev.next := elm;
    listelm.prev := elm;
    LinkedInserted(chain, k - 1, elm);
  }

  /** The removed element keeps its own two pointers. */
  method Remove(head: Link, elm: Link, ghost chain: seq<Link>, ghost k: nat)
    requires Linked(chain) && chain[0] == head
    requires 0 < k < |chain| && chain[k] == elm
    modifies chain
    ensures Linked(Removed(chain, k))
    ensures elm.next == old(elm.next) && elm.prev == old(elm.prev)
  {
    if elm.next != null {
      assert elm.next == chain[k + 1];
      elm.next.prev := elm.prev;
    } else {
      assert k == |chain| - 1;
      head.prev := elm.prev;
    }
    elm.prev.next := elm.next;
    ghost var c := Removed(chain, k);
    assert forall i :: 0 <= i < k ==> c[i] == chain[i];
    assert forall i :: k <= i < |c| ==> c[i] == chain[i + 1];
  }

  method Concat(head1: Link, head2: Link, ghost chain1: seq<Link>, ghost chain2: seq<Link>)
    requires Linked(chain1) && chain1[0] == head1 && Linked(chain2) && chain2[0] == head2
    requires forall i, j :: 0 <= i < |chain1| && 0 <= j < |chain2| ==> chain1[i] != chain2[j]
    modifies chain1, chain2
    ensures Linked(chain1 + chain2[1..]) && Linked([head2])
  {
    ghost var n, c := |chain1|, chain1 + chain2[1..];
    assert forall i :: 0 <= i < n ==> c[i] == chain1[i];
    assert forall i :: n <= i < |c| ==> c[i] == chain2[i - n + 1];
    if head2.next != null {
      assert head2.next == chain2[1];
      head1.prev.next := head2.next;
      head2.next.prev := head1.prev;
      head1.prev := head2.prev;
      Init(head2);
    } else {
      assert |chain2| == 1 && c == chain1;
    }
  }

  method Swap(head1: Link, head2: Link, ghost chain1: seq<Link>, ghost chain2: seq<Link>)
    requires Linked(chain1) && chain1[0] == head1 && Linked(chain2) && chain2[0] == head2
    requires forall i, j :: 0 <= i < |chain1| && 0 <= j < |chain2| ==> chain1[i] != chain2[j]
    modifies chain1, chain2
    ensures Linked([head1] + chain2[1..]) && Linked([head2] + chain1[1..])
  {
    ghost var c, d := [head1] + chain2[1..], [head2] + chain1[1..];
    assert forall i :: 0 < i < |c| ==> c[i] == chain2[i];
    assert forall i :: 0 < i < |d| ==> d[i] == chain1[i];
    var first, last := head1.next, head1.prev;
    head1.next := head2.next;
    head1.prev := head2.prev;
    head2.next := first;
    head2.prev := last;
    first := head1.next;
    if first != null {
      assert first == chain2[1];
      first.prev := head1;
    } else {
      head1.prev := head1;
    }
    first := head2.next;
    if first != null {
      assert first == chain1[1];
      first.prev := head2;
    } else {
      head2.prev := head2;
    }
  }

  /** `TAILQ_LAST`: through the last element back to the `next` field that points at it. */
  method Last(head: Link, ghost chain: seq<Link>) returns (elm: Link?)
    requires Linked(chain) && chain[0] == head
    ensures elm == if |chain| == 1 then null else chain[|chain| - 1]
  {
    elm := head.prev.prev.next;
  }

  /** `TAILQ_PREV`. */
  method Prev(elm: Link, ghost chain: seq<Link>, ghost k: nat) returns (before: Link?)
    requires Linked(chain) && 0 < k < |chain| && chain[k] == elm
    ensures before == if k == 1 then null else chain[k - 1]
  {
    before := elm.prev.prev.next;
  }

  ghost function Reverse(s: seq<Link>): (r: seq<Link>)
    ensures |r| == |s| && forall i :: 0 <= i < |s| ==> r[i] == s[|s| - 1 - i]
  {
    if |s| == 0 then [] else Reverse(s[1..]) + [s[0]]
  }

  /** `TAILQ_FOREACH_REVERSE`: the elements visited, in order. */
  method ForeachReverse(head: Link, ghost chain: seq<Link>) returns (visited: seq<Link>)
    requires Linked(chain) && chain[0] == head
    ensures visited == Reverse(chain[1..])
  {
    visited := [];
    var elm := Last(head, chain);
    ghost var k := |chain| - 1;
    while elm != null
      invariant 0 <= k < |chain|
      invariant elm == if k == 0 then null else chain[k]
      invariant |visited| == |chain| - 1 - k
      invariant forall i :: 0 <= i < |visited| ==> visited[i] == chain[|chain| - 1 - i]
      decreases k
    {
      visited := visited + [elm];
      elm := Prev(elm, chain, k);
      k := k - 1;
    }
  }
}
