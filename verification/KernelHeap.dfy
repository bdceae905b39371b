/** kmalloc, krealloc and kfree over numbered blocks. */
module KernelHeap {
  import opened ByteStream

  /** No request above this size is ever granted; a kernel with a smaller limit refuses more. */
  const KMALLOC_LIMIT: nat := 0x800_0000

  predicate Granted(ok: bool, size: nat) {
    ok && size <= KMALLOC_LIMIT
  }

  class Heap {
    /** Blocks by address; address 0 is NULL. */
    var live: map<nat, seq<Byte>>
    var next: nat
    ghost var freed: set<nat>

    /** Every address ever handed out is live or freed, and never both. */
    ghost predicate Valid()
      reads this
    {
      && 0 < next
      && live.Keys !! freed
      && forall a: nat :: (a in live || a in freed) <==> 1 <= a < next
    }

    constructor ()
      ensures Valid() && live == map[] && freed == {}
    {
      live, next, freed := map[], 1, {};
    }

    /** The new block's contents are arbitrary. */
    method Kmalloc(size: nat, ok: bool) returns (p: nat)
      requires Valid()
      modifies this
      ensures Valid() && freed == old(freed)
      ensures !Granted(ok, size) ==> p == 0 && live == old(live)
      ensures Granted(ok, size) ==>
                && p != 0 && p !in old(live) && p !in freed
                && live.Keys == old(live).Keys + {p} && |live[p]| == size
                && forall a :: a in old(live) ==> live[a] == old(live)[a]
    {
      if !Granted(ok, size) {
        return 0;
      }
      p := next;
      live := live[p := seq(size, _ => 0)];
      next := next + 1;
    }

    /** Freeing NULL does nothing; any other argument must be a live block. */
    method Kfree(p: nat)
      requires Valid()
      requires p == 0 || p in live
      modifies this
      ensures Valid()
      ensures p == 0 ==> live == old(live) && freed == old(freed)
      ensures p != 0 ==> live == old(live) - {p} && freed == old(freed) + {p}
    {
      if p == 0 {
        return;
      }
      live, freed := live - {p}, freed + {p};
    }

    /** On failure the old block survives; on success it is extended in place or replaced. */
    method Krealloc(p: nat, size: nat, ok: bool, moves: bool) returns (q: nat)
      requires Valid()
      requires p in live && |live[p]| <= size
      modifies this
      ensures Valid()
      ensures !Granted(ok, size) ==> q == 0 && live == old(live) && freed == old(freed)
      ensures Granted(ok, size) ==>
                && q != 0 && (q == p || (q !in old(live) && q !in old(freed)))
                && live.Keys == old(live).Keys - {p} + {q}
                && freed == old(freed) + (if q == p then {} else {p})
                && |live[q]| == size && live[q][..|old(live)[p]|] == old(live)[p]
                && forall a :: a in old(live) && a != p ==> live[a] == old(live)[a]
    {
      if !Granted(ok, size) {
        return 0;
      }
      var data := live[p] + seq(size - |live[p]|, _ => 0);
      if moves {
        q := next;
        live, freed, next := (live - {p})[q := data], freed + {p}, next + 1;
      } else {
        q := p;
        live := live[p := data];
      }
    }

    /** Copy `data` into block `p` from byte `at` on. */
    method Store(p: nat, at: nat, data: seq<Byte>)
      requires Valid()
      requires p in live && at + |data| <= |live[p]|
      modifies this
      ensures Valid() && freed == old(freed)
      ensures live == old(live)[p := old(live)[p][..at] + data + old(live)[p][at + |data|..]]
    {
      live := live[p := live[p][..at] + data + live[p][at + |data|..]];
    }
  }
}
