/** The server's list of client threads: queue.h, SLIST, as listenLoop uses it. */
module ThreadRegistry {

  class Node {
    /** Identifies the thread: the number of connections accepted before it. */
    const id: nat
    /** `entries.sle_next` */
    var next: Node?

    constructor (id: nat)
      ensures this.id == id && next == null
    {
      this.id := id;
      next := null;
    }
  }

  /** `nodes` are the nodes reached from `first`, in order. */
  ghost predicate Linked(first: Node?, nodes: seq<Node>)
    reads nodes
  {
    && (forall i, j :: 0 <= i < j < |nodes| ==> nodes[i] != nodes[j])
    && first == (if |nodes| == 0 then null else nodes[0])
    && (forall i {:trigger nodes[i].next} :: 0 <= i < |nodes| ==>
          nodes[i].next == if i + 1 < |nodes| then nodes[i + 1] else null)
  }

  ghost function Members(nodes: seq<Node>): set<Node> {
    set n | n in nodes
  }

  /** The nodes whose thread has not been seen complete, in the same order. */
  function Keep(nodes: seq<Node>, seen: set<nat>): (kept: seq<Node>)
    ensures |kept| <= |nodes|
    ensures forall n :: n in kept ==> n in nodes && n.id !in seen
    ensures forall n :: n in nodes && n.id !in seen ==> n in kept
  {
    if |nodes| == 0 then [] else
    var last := nodes[|nodes| - 1];
    var kept := Keep(nodes[..|nodes| - 1], seen);
    if last.id in seen then kept else kept + [last]
  }

  ghost function Complete(nodes: seq<Node>, seen: set<nat>): set<Node> {
    set n | n in nodes && n.id in seen
  }

  lemma MembersSplit(before: seq<Node>, n: Node, after: seq<Node>)
    ensures Members(before + [n] + after) == Members(before + after) + {n}
  {
  }

  /** Taking the first node off a list, and moving it to the end of the list before. */
  lemma Uncons(nodes: seq<Node>) returns (later: seq<Node>)
    requires |nodes| > 0
    ensures nodes == [nodes[0]] + later
  {
    later := nodes[1..];
  }

  lemma Shift(before: seq<Node>, n: Node, later: seq<Node>)
    ensures before + ([n] + later) == before + [n] + later
  {
  }

  lemma KeepSnoc(nodes: seq<Node>, n: Node, seen: set<nat>)
    ensures Keep(nodes + [n], seen) == if n.id in seen then Keep(nodes, seen) else Keep(nodes, seen) + [n]
  {
  }

  /** If nothing is lost, what a pass frees is what it does not keep. */
  lemma FreedByPass(nodes: seq<Node>, seen: set<nat>, freed: set<Node>, freed': set<Node>)
    requires Members(nodes) + freed == Members(Keep(nodes, seen)) + freed'
    requires Members(nodes) !! freed && Members(Keep(nodes, seen)) !! freed'
    ensures freed' == freed + Complete(nodes, seen)
  {
  }

  class Registry {
    var first: Node?
    ghost var nodes: seq<Node>
    ghost var inserted: set<Node>
    ghost var joined: set<Node>
    ghost var freed: set<Node>

    /** Every node ever inserted is listed or has been joined and freed, never both. */
    ghost predicate Valid()
      reads this, nodes
    {
      && Linked(first, nodes)
      && joined == freed
      && Members(nodes) !! freed
      && inserted == Members(nodes) + freed
    }

    /** SLIST_INIT */
    constructor ()
      ensures Valid() && nodes == [] && inserted == {}
    {
      first := null;
      nodes, inserted, joined, freed := [], {}, {}, {};
    }

    /** Reading a node's link: not allowed once the node has been freed. */
    function Next(n: Node): Node?
      requires n !in freed
      reads this, n
    {
      n.next
    }

    /** SLIST_INSERT_HEAD */
    method InsertHead(elm: Node)
      requires Valid() && elm !in inserted
      modifies this, elm
      ensures Valid()
      ensures nodes == [elm] + old(nodes) && inserted == old(inserted) + {elm} && freed == old(freed)
    {
      elm.next := first;
      first := elm;
      nodes := [elm] + nodes;
      inserted := inserted + {elm};
    }

    /** SLIST_REMOVE: unlink the head, or walk to the element before. */
    method Remove(elm: Node, ghost k: nat)
      requires Linked(first, nodes) && Members(nodes) !! freed
      requires k < |nodes| && nodes[k] == elm
      modifies this`first, this`nodes, Members(nodes)
      ensures nodes == old(nodes[..k] + nodes[k + 1..])
      ensures Linked(first, nodes)
      ensures elm.next == old(elm.next)
    {
      ghost var before := nodes;
      if first == elm {
        first := Next(first);
      } else {
        var curelm := first;
        ghost var i := 0;
        while Next(curelm) != elm
          invariant 0 <= i < k && curelm == nodes[i]
          decreases k - i
        {
          curelm := Next(curelm);
          i := i + 1;
        }
        curelm.next := Next(Next(curelm));
      }
      nodes := nodes[..k] + nodes[k + 1..];
      assert forall i :: 0 <= i < k ==> nodes[i] == before[i];
      assert forall i :: k <= i < |nodes| ==> nodes[i] == before[i + 1];
    }

    /** pthread_join: once per thread. */
    method Join(n: Node)
      requires n !in joined && n !in freed
      modifies this`joined
      ensures joined == old(joined) + {n}
    {
      joined := joined + {n};
    }

    /** free: of a node that is no longer listed and whose thread has been joined, once. */
    method Free(n: Node)
      requires n in joined && n !in freed && n !in nodes
      modifies this`freed
      ensures freed == old(freed) + {n}
    {
      freed := freed + {n};
    }

    /** The body of the reaping loop at `dataptr`, between the nodes kept so far and the rest. The
        successor is saved first, so it is never read from a freed node. */
    method Visit(dataptr: Node, complete: bool, ghost kept: seq<Node>, ghost rest: seq<Node>) returns (tmp: Node?)
      requires Valid() && nodes == kept + [dataptr] + rest
      modifies this, Members(nodes)
      ensures Valid() && inserted == old(inserted)
      ensures nodes == (if complete then kept else kept + [dataptr]) + rest
      ensures freed == old(freed) + if complete then {dataptr} else {}
      ensures tmp == if |rest| == 0 then null else rest[0]
      ensures Members(nodes) <= old(Members(nodes))
    {
      assert nodes[|kept|] == dataptr;
      assert |rest| > 0 ==> nodes[|kept| + 1] == rest[0];
      tmp := Next(dataptr);
      if complete {
        MembersSplit(kept, dataptr, rest);
        Remove(dataptr, |kept|);
        assert nodes == kept + rest;
        Join(dataptr);
        Free(dataptr);
      }
    }

    /** One pass of SLIST_FOREACH_SAFE over the list, taking out every node whose thread is seen
        complete when the pass reaches it. */
    method Reap(seen: set<nat>)
      requires Valid()
      modifies this, Members(nodes)
      ensures Valid() && inserted == old(inserted)
      ensures nodes == old(Keep(nodes, seen))
      ensures freed == old(freed) + Complete(old(nodes), seen)
    {
      ghost var visited, rest := [], nodes;
      var dataptr := first;
      while dataptr != null
        invariant Valid() && inserted == old(inserted)
        invariant visited + rest == old(nodes) && nodes == Keep(visited, seen) + rest
        invariant dataptr == if |rest| == 0 then null else rest[0]
        invariant Members(nodes) <= old(Members(nodes))
        decreases |rest|
      {
        ghost var elm, kept := rest[0], Keep(visited, seen);
        ghost var later := Uncons(rest);
        Shift(kept, elm, later);
        Shift(visited, elm, later);
        KeepSnoc(visited, elm, seen);
        dataptr := Visit(dataptr, dataptr.id in seen, kept, later);
        visited, rest := visited + [elm], later;
      }
      assert visited == old(nodes) && nodes == Keep(visited, seen);
      FreedByPass(visited, seen, old(freed), freed);
    }

    /** The pass at the end of the program, which takes out every node. */
    method Shutdown()
      requires Valid()
      modifies this, Members(nodes)
      ensures Valid() && inserted == old(inserted)
      ensures nodes == [] && freed == inserted
    {
      var dataptr := first;
      while dataptr != null
        invariant Valid() && inserted == old(inserted)
        invariant dataptr == first
        invariant Members(nodes) <= old(Members(nodes))
        decreases |nodes|
      {
        assert nodes == [] + [dataptr] + nodes[1..];
        dataptr := Visit(dataptr, true, [], nodes[1..]);
      }
    }
  }

  // ---- Whole runs -----------------------------------------------------------------------

  /** The numbers of the threads still listed after the given passes: pass `j` follows the insertion
      of thread `j` and sees the threads of `passes[j]` complete. */
  function Listed(passes: seq<set<nat>>): seq<nat> {
    if |passes| == 0 then [] else
    var n := |passes| - 1;
    Without([n] + Listed(passes[..n]), passes[n])
  }

  function Without(ids: seq<nat>, seen: set<nat>): seq<nat> {
    if |ids| == 0 then [] else
    var last := ids[|ids| - 1];
    var kept := Without(ids[..|ids| - 1], seen);
    if last in seen then kept else kept + [last]
  }

  function Ids(nodes: seq<Node>): (ids: seq<nat>)
    ensures |ids| == |nodes| && forall i :: 0 <= i < |nodes| ==> ids[i] == nodes[i].id
  {
    seq(|nodes|, i requires 0 <= i < |nodes| => nodes[i].id)
  }

  lemma IdsCons(n: Node, nodes: seq<Node>)
    ensures Ids([n] + nodes) == [n.id] + Ids(nodes)
  {
  }

  lemma {:induction false} KeepIds(nodes: seq<Node>, seen: set<nat>)
    ensures Ids(Keep(nodes, seen)) == Without(Ids(nodes), seen)
  {
    if |nodes| > 0 {
      var n := |nodes| - 1;
      assert Ids(nodes)[..n] == Ids(nodes[..n]);
      KeepIds(nodes[..n], seen);
      assert Ids(Keep(nodes[..n], seen) + [nodes[n]]) == Ids(Keep(nodes[..n], seen)) + [nodes[n].id];
    }
  }

  lemma {:induction false} WithoutMembers(ids: seq<nat>, seen: set<nat>)
    ensures forall k :: k in Without(ids, seen) <==> k in ids && k !in seen
    ensures Descending(ids) ==> Descending(Without(ids, seen))
  {
    if |ids| > 0 {
      var n := |ids| - 1;
      WithoutMembers(ids[..n], seen);
      assert ids == ids[..n] + [ids[n]];
      var kept := Without(ids[..n], seen);
      if Descending(ids) {
        forall i | 0 <= i < |kept| ensures kept[i] > ids[n] {
          assert kept[i] in kept;
        }
      }
    }
  }

  predicate Descending(ids: seq<nat>) {
    forall i, j :: 0 <= i < j < |ids| ==> ids[i] > ids[j]
  }

  /** A thread is listed exactly when no pass since its insertion saw it complete; the list runs
      from the newest thread to the oldest. */
  lemma {:induction false} ListedIffNeverSeen(passes: seq<set<nat>>)
    ensures forall k: nat :: k in Listed(passes) <==>
              k < |passes| && forall j :: k <= j < |passes| ==> k !in passes[j]
    ensures Descending(Listed(passes))
  {
    if |passes| > 0 {
      var n := |passes| - 1;
      var before := Listed(passes[..n]);
      ListedIffNeverSeen(passes[..n]);
      forall i | 0 <= i < |before| ensures before[i] < n {
        assert before[i] in before;
      }
      WithoutMembers([n] + before, passes[n]);
      forall k: nat
        ensures k in Listed(passes) <==> k < |passes| && forall j :: k <= j < |passes| ==> k !in passes[j]
      {
        assert k in Listed(passes) <==> (k == n || k in before) && k !in passes[n];
        assert forall j :: 0 <= j < n ==> passes[..n][j] == passes[j];
      }
    }
  }

  /** `listenLoop`: accept, insert and reap until the program ends, then take everything out. Every
      node is freed exactly once, and until the end the list holds exactly the threads never seen
      complete. */
  method ListenLoop(passes: seq<set<nat>>) returns (registry: Registry, ghost beforeShutdown: seq<nat>)
    ensures fresh(registry) && registry.Valid() && registry.nodes == []
    ensures registry.freed == registry.joined == registry.inserted
    ensures |registry.inserted| == |passes|
    ensures beforeShutdown == Listed(passes)
  {
    registry := new Registry();
    for n := 0 to |passes|
      invariant fresh(registry) && registry.Valid()
      invariant forall x :: x in registry.inserted ==> fresh(x)
      invariant |registry.inserted| == n
      invariant Ids(registry.nodes) == Listed(passes[..n])
    {
      assert passes[..n + 1][..n] == passes[..n];
      Serve(registry, n, passes[n]);
    }
    assert passes[..|passes|] == passes;
    beforeShutdown := Ids(registry.nodes);
    registry.Shutdown();
  }

  /** One turn of the accept loop: insert the new client's node, then reap. */
  method Serve(registry: Registry, n: nat, seen: set<nat>)
    requires registry.Valid()
    modifies registry, Members(registry.nodes)
    ensures registry.Valid()
    ensures |registry.inserted| == |old(registry.inserted)| + 1
    ensures forall x :: x in registry.inserted ==> x in old(registry.inserted) || fresh(x)
    ensures Ids(registry.nodes) == Without([n] + old(Ids(registry.nodes)), seen)
  {
    Accept(registry, n);
    KeepIds(registry.nodes, seen);
    registry.Reap(seen);
  }

  method Accept(registry: Registry, n: nat)
    requires registry.Valid()
    modifies registry
    ensures registry.Valid()
    ensures |registry.inserted| == |old(registry.inserted)| + 1
    ensures forall x :: x in registry.inserted ==> x in old(registry.inserted) || fresh(x)
    ensures forall x :: x in registry.nodes ==> x in old(registry.nodes) || fresh(x)
    ensures Ids(registry.nodes) == [n] + old(Ids(registry.nodes))
  {
    var newNode := new Node(n);
    IdsCons(newNode, registry.nodes);
    assert newNode !in registry.inserted;
    registry.InsertHead(newNode);
  }
}
