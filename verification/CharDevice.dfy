/** main.c: the device object, its scratch buffer, its ring and the blocks it owns. */
module CharDevice {
  import opened Options
  import opened ByteStream
  import opened CInt
  import opened CircularBuffer
  import opened KernelHeap
  import opened DriverLog
  import opened DriverRuns

  /** The live blocks are the scratch block `t` (0 if there is none) and one further, distinct
      block for each entry of `w`, holding exactly the matching message. */
  ghost predicate Owns(live: map<nat, seq<Byte>>, w: seq<Entry>, msgs: seq<seq<Byte>>, t: nat) {
    && |w| == |msgs| && 0 !in live
    && (forall k :: 0 <= k < |w| ==>
          && w[k].buffptr in live && w[k].buffptr != t
          && live[w[k].buffptr] == msgs[k] && w[k].size == |msgs[k]|)
    && (forall j, k :: 0 <= j < k < |w| ==> w[j].buffptr != w[k].buffptr)
    && (t != 0 ==> t in live)
    && (forall a :: a in live ==> a == t || exists k :: 0 <= k < |w| && w[k].buffptr == a)
  }

  ghost function Addresses(w: seq<Entry>): set<nat> {
    set k | 0 <= k < |w| :: w[k].buffptr
  }

  lemma {:induction false} AddressCount(w: seq<Entry>)
    requires forall j, k :: 0 <= j < k < |w| ==> w[j].buffptr != w[k].buffptr
    ensures |Addresses(w)| == |w|
  {
    if |w| > 0 {
      var n := |w| - 1;
      AddressCount(w[..n]);
      assert Addresses(w) == Addresses(w[..n]) + {w[n].buffptr};
      assert w[n].buffptr !in Addresses(w[..n]);
    }
  }

  lemma OwnsExactly(live: map<nat, seq<Byte>>, w: seq<Entry>, msgs: seq<seq<Byte>>, t: nat)
    requires Owns(live, w, msgs, t)
    ensures live.Keys == Addresses(w) + if t != 0 then {t} else {}
    ensures |live.Keys| == |w| + if t != 0 then 1 else 0
    ensures t !in Addresses(w)
  {
    AddressCount(w);
    forall a | a in live && a != t ensures a in Addresses(w) {
      var k :| 0 <= k < |w| && w[k].buffptr == a;
    }
    assert Addresses(w) <= live.Keys;
    if t != 0 {
      assert live.Keys == Addresses(w) + {t};
    } else {
      assert live.Keys == Addresses(w);
    }
  }

  lemma Difference(live: set<nat>, freed: set<nat>, live': set<nat>, freed': set<nat>, blocks: set<nat>)
    requires freed' + live' == freed + live && freed !! live && freed' !! live'
    requires live == blocks + live' && blocks !! live'
    ensures freed' == freed + blocks
  {
  }

  /** The live blocks are `t` and those of the slots from `i` on. */
  ghost predicate Remaining(live: map<nat, seq<Byte>>, slots: seq<Entry>, i: nat, t: nat) {
    && (forall j :: i <= j < |slots| && slots[j].buffptr != 0 ==> slots[j].buffptr in live && slots[j].buffptr != t)
    && (forall j, k :: i <= j < k < |slots| && slots[j].buffptr != 0 ==> slots[j].buffptr != slots[k].buffptr)
    && (t != 0 ==> t in live)
    && (forall a :: a in live ==> a == t || exists j :: i <= j < |slots| && slots[j].buffptr == a)
  }

  /** One turn of the freeing loop. */
  lemma RemainingStep(live: map<nat, seq<Byte>>, slots: seq<Entry>, i: nat, t: nat)
    requires i < |slots| && 0 !in live && Remaining(live, slots, i, t)
    ensures slots[i].buffptr == 0 ==> Remaining(live, slots, i + 1, t)
    ensures slots[i].buffptr != 0 ==>
              slots[i].buffptr in live
              && Remaining(live - {slots[i].buffptr}, slots[i := Entry(0, slots[i].size)], i + 1, t)
  {
    var slots' := slots[i := Entry(0, slots[i].size)];
    forall a | a in live && a != t && a != slots[i].buffptr
      ensures exists j :: i + 1 <= j < |slots| && slots[j].buffptr == a == slots'[j].buffptr
    {
      var j :| i <= j < |slots| && slots[j].buffptr == a;
      assert slots'[j] == slots[j];
    }
  }

  /** Where slot `j` comes when the ring is read from slot `out`. */
  function Place(out: nat, n: nat, j: nat): int {
    if j >= out then j - out else j + n - out
  }

  lemma RotatePlace(slots: seq<Entry>, out: nat, j: nat)
    requires out <= |slots| && j < |slots|
    ensures 0 <= Place(out, |slots|, j) < |slots| && Rotate(slots, out)[Place(out, |slots|, j)] == slots[j]
  {
  }

  /** The slots of the ring hold the blocks of the window, each once. */
  lemma RemainingRotate(live: map<nat, seq<Byte>>, slots: seq<Entry>, out: nat, w: seq<Entry>, n: nat,
                        msgs: seq<seq<Byte>>, t: nat)
    requires out <= |slots| && Rotate(slots, out) == w + Blank(n)
    requires Owns(live, w, msgs, t)
    ensures Remaining(live, slots, 0, t)
  {
    var r := Rotate(slots, out);
    forall j | 0 <= j < |slots| && slots[j].buffptr != 0
      ensures slots[j].buffptr in live && slots[j].buffptr != t
    {
      RotatePlace(slots, out, j);
    }
    forall j, k | 0 <= j < k < |slots| && slots[j].buffptr != 0
      ensures slots[j].buffptr != slots[k].buffptr
    {
      RotatePlace(slots, out, j);
      RotatePlace(slots, out, k);
    }
    forall a | a in live && a != t ensures exists j :: 0 <= j < |slots| && slots[j].buffptr == a {
      var k :| 0 <= k < |w| && w[k].buffptr == a;
      var j := if k + out < |slots| then k + out else k + out - |slots|;
      RotatePlace(slots, out, j);
      assert r[k].buffptr == a && slots[j].buffptr == a;
    }
  }

  /** Dropping the scratch block. */
  lemma OwnsFree(live: map<nat, seq<Byte>>, w: seq<Entry>, msgs: seq<seq<Byte>>, t: nat)
    requires Owns(live, w, msgs, t)
    ensures Owns(live - {t}, w, msgs, 0)
  {
  }

  /** Replacing the scratch block, or acquiring one. */
  lemma OwnsReplace(live: map<nat, seq<Byte>>, live': map<nat, seq<Byte>>, w: seq<Entry>,
                    msgs: seq<seq<Byte>>, t: nat, t': nat)
    requires Owns(live, w, msgs, t)
    requires t' != 0 && (t' == t || t' !in live)
    requires live'.Keys == live.Keys - {t} + {t'}
    requires forall a :: a in live && a != t ==> live'[a] == live[a]
    ensures Owns(live', w, msgs, t')
  {
  }

  /** A new message block while the window still has room. */
  lemma OwnsPush(live: map<nat, seq<Byte>>, w: seq<Entry>, msgs: seq<seq<Byte>>, t: nat, p: nat, text: seq<Byte>)
    requires Owns(live, w, msgs, t)
    requires p !in live && p != 0 && p != t
    ensures Owns(live[p := text], w + [Entry(p, |text|)], msgs + [text], t)
  {
    var live', w' := live[p := text], w + [Entry(p, |text|)];
    forall a | a in live' ensures a == t || exists k :: 0 <= k < |w'| && w'[k].buffptr == a {
      if a == p {
        assert w'[|w|].buffptr == a;
      } else if a != t {
        var k :| 0 <= k < |w| && w[k].buffptr == a;
        assert w'[k].buffptr == a;
      }
    }
  }

  /** Evicting the oldest message block. */
  lemma OwnsPop(live: map<nat, seq<Byte>>, w: seq<Entry>, msgs: seq<seq<Byte>>, t: nat)
    requires Owns(live, w, msgs, t) && |w| > 0
    ensures Owns(live - {w[0].buffptr}, w[1..], msgs[1..], t)
  {
    var live', w' := live - {w[0].buffptr}, w[1..];
    forall a | a in live' ensures a == t || exists k :: 0 <= k < |w'| && w'[k].buffptr == a {
      if a != t {
        var k :| 0 <= k < |w| && w[k].buffptr == a;
        assert w'[k - 1].buffptr == a;
      }
    }
  }

  function Zeros(n: nat): (s: seq<nat>)
    ensures |s| == n && forall i :: 0 <= i < n ==> s[i] == 0
  {
    seq(n, _ => 0)
  }

  /** Appending to a full window drops its oldest value. */
  lemma WindowAppend<T>(log: seq<T>, x: T)
    ensures |log| < CAPACITY ==> Window(log + [x]) == Window(log) + [x]
    ensures |log| >= CAPACITY ==> Window(log + [x]) == (Window(log) + [x])[1..]
    ensures |log| >= CAPACITY ==> (Window(log) + [x])[0] == log[|log| - CAPACITY]
  {
  }

  lemma {:induction false} PrefixPadded(sizes: seq<nat>, n: nat, c: nat)
    requires c <= |sizes| + n
    ensures Prefix(sizes + Zeros(n), c) == Prefix(sizes, if c < |sizes| then c else |sizes|)
  {
    if c <= |sizes| {
      PrefixLocal(sizes + Zeros(n), sizes, c);
    } else {
      PrefixPadded(sizes, n, c - 1);
    }
  }

  /** The doubling loop of `aesd_write`, in `size_t` arithmetic: from the capacity for `held`
      bytes to the capacity for `needed`. */
  method NewCapacity(size: nat, ghost held: nat, needed: nat) returns (newSize: nat, resizeNeeded: bool)
    requires size == Cap(held) && held <= KMALLOC_LIMIT && held <= needed < TWO32
    ensures newSize == Cap(needed)
    ensures resizeNeeded == (size < needed)
    ensures if resizeNeeded then newSize >= 2 * size else newSize == size
  {
    GrowTwice(STARTING_SIZE, held, needed);
    GrowBound(STARTING_SIZE, held);
    newSize, resizeNeeded := size, false;
    while newSize < needed
      invariant size <= newSize < 2 * TWO32
      invariant Grow(newSize, needed) == Cap(needed)
      invariant resizeNeeded == (newSize > size)
      invariant resizeNeeded ==> newSize >= 2 * size && size < needed
      decreases needed - newSize
    {
      newSize := ToSizeT(newSize * 2);
      resizeNeeded := true;
    }
  }

  /** Which command of the window a slot holds. */
  function CommandAt(out: nat, slot: nat): nat
    requires out < CAPACITY
  {
    (slot + CAPACITY - out) % CAPACITY
  }

  lemma CommandAtSlot(out: nat, c: nat)
    requires out < CAPACITY && c < CAPACITY
    ensures CommandAt(out, (out + c) % CAPACITY) == c
  {
    var slot := if out + c < CAPACITY then out + c else out + c - CAPACITY;
    assert (out + c) % CAPACITY == slot;
  }

  class Device {
    const heap: Heap
    const ring: Ring
    const flag: FillFlag
    var tempBuffer: nat
    var tempBufferIndex: int
    var tempBufferSize: int
    var onGoingWrite: bool
    /** Every message ever committed. */
    ghost var messages: seq<seq<Byte>>
    /** Lengths of the chunks of the message being collected. */
    ghost var lens: seq<nat>
    /** Old capacities summed over the reallocations of that message. */
    ghost var retired: nat

    ghost predicate RingValid()
      reads this`messages, ring, ring.entry, flag
    {
      && ring.Valid(flag)
      && flag.hasBufferBeenFilled == (|messages| >= CAPACITY)
      && |ring.added| == |messages|
    }

    /** The live blocks are the scratch buffer of an ongoing write and the blocks of `w`. */
    ghost predicate Holding(w: seq<Entry>, msgs: seq<seq<Byte>>)
      reads this, heap
    {
      && heap.Valid()
      && Owns(heap.live, w, msgs, if onGoingWrite then tempBuffer else 0)
      && (onGoingWrite ==>
            && tempBuffer in heap.live
            && 0 <= tempBufferIndex <= tempBufferSize == |heap.live[tempBuffer]| <= KMALLOC_LIMIT)
    }

    /** The reallocations so far are those the chunks called for. */
    ghost predicate Tracked()
      reads this
    {
      onGoingWrite ==>
        Tally(lens, tempBufferIndex, retired) && tempBufferSize == Cap(tempBufferIndex)
    }

    /** Ownership: one distinct block for each message of the window, plus the scratch buffer
        of an ongoing write, and nothing else. */
    ghost predicate Owned()
      reads this, heap, ring, ring.entry, flag
    {
      RingValid() && Holding(Window(ring.added), Window(messages))
    }

    /** The bytes collected so far. */
    ghost function Pending(): seq<Byte>
      reads this, heap
      requires onGoingWrite ==> tempBuffer in heap.live && 0 <= tempBufferIndex <= |heap.live[tempBuffer]|
    {
      if onGoingWrite then heap.live[tempBuffer][..tempBufferIndex] else []
    }

    /** The abstract state. */
    ghost function Abs(): Driver
      reads this, heap, ring, ring.entry, flag
      requires Owned()
    {
      Driver(messages, Pending(), onGoingWrite)
    }

    /** The invariant that holds between calls. */
    ghost predicate Valid()
      reads this, heap, ring, ring.entry, flag
    {
      && Owned() && WellFormed(Abs())
      && Tracked()
    }

    /** `aesd_init_module`. */
    constructor ()
      ensures Valid() && Abs() == FRESH
      ensures fresh(heap) && fresh(ring) && fresh(ring.entry) && fresh(flag)
    {
      var f := new FillFlag();
      heap := new Heap();
      ring := new Ring(f);
      flag := f;
      tempBuffer, tempBufferIndex, tempBufferSize, onGoingWrite := 0, 0, 0, false;
      messages, lens, retired := [], [], 0;
    }

    /** Allocate the starting scratch buffer. */
    method OpenScratch(env: WriteEnv, ghost w: seq<Entry>, ghost msgs: seq<seq<Byte>>) returns (ok: bool)
      requires Holding(w, msgs) && !onGoingWrite
      modifies `tempBuffer, `tempBufferIndex, `tempBufferSize, `onGoingWrite, `lens, `retired, heap
      ensures Holding(w, msgs)
      ensures ok == onGoingWrite == Granted(env.scratch, STARTING_SIZE)
      ensures ok ==> tempBufferIndex == 0 && tempBufferSize == STARTING_SIZE && lens == [] && retired == 0
    {
      ghost var live := heap.live;
      tempBuffer := heap.Kmalloc(STARTING_SIZE, env.scratch);
      if tempBuffer == 0 {
        return false;
      }
      OwnsReplace(live, heap.live, w, msgs, 0, tempBuffer);
      tempBufferSize := STARTING_SIZE;
      tempBufferIndex := 0;
      onGoingWrite := true;
      lens, retired := [], 0;
      return true;
    }

    /** Make room for `count` more bytes; a failed reallocation drops the pending message. */
    method GrowScratch(count: nat, env: WriteEnv, ghost w: seq<Entry>, ghost msgs: seq<seq<Byte>>)
      returns (ok: bool)
      requires Holding(w, msgs) && onGoingWrite && count <= MAX_RW_COUNT
      requires tempBufferSize == Cap(tempBufferIndex) && tempBufferIndex <= KMALLOC_LIMIT
      modifies `tempBuffer, `tempBufferIndex, `tempBufferSize, `onGoingWrite, `retired, heap
      ensures Holding(w, msgs)
      ensures ok == (old(tempBufferIndex) + count <= Cap(old(tempBufferIndex))
                     || Granted(env.grow, Cap(old(tempBufferIndex) + count)))
      ensures onGoingWrite == ok
      ensures ok ==> Pending() == old(Pending()) && tempBufferIndex == old(tempBufferIndex)
      ensures ok ==> tempBufferSize == Cap(tempBufferIndex + count)
      ensures ok ==> retired == old(retired) + RetiredBy(tempBufferIndex, tempBufferIndex + count)
    {
      var newSize, resizeNeeded := NewCapacity(tempBufferSize, tempBufferIndex, tempBufferIndex + count);
      if resizeNeeded {
        ok := ReallocScratch(newSize, env, w, msgs);
      } else {
        ok := true;
      }
    }

    method ReallocScratch(newSize: nat, env: WriteEnv, ghost w: seq<Entry>, ghost msgs: seq<seq<Byte>>)
      returns (ok: bool)
      requires Holding(w, msgs) && onGoingWrite && newSize >= 2 * tempBufferSize
      modifies `tempBuffer, `tempBufferIndex, `tempBufferSize, `onGoingWrite, `retired, heap
      ensures Holding(w, msgs)
      ensures ok == onGoingWrite == Granted(env.grow, newSize)
      ensures ok ==> Pending() == old(Pending()) && tempBufferIndex == old(tempBufferIndex)
      ensures ok ==> tempBufferSize == newSize && retired == old(retired) + old(tempBufferSize)
    {
      ghost var live := heap.live;
      var expanded := heap.Krealloc(tempBuffer, newSize, env.grow, env.moves);
      if expanded == 0 {
        OwnsFree(live, w, msgs, tempBuffer);
        heap.Kfree(tempBuffer);
        onGoingWrite := false;
        tempBufferIndex := 0;
        tempBuffer := 0;
        return false;
      }
      OwnsReplace(live, heap.live, w, msgs, tempBuffer, expanded);
      assert heap.live[expanded][..tempBufferIndex] == live[tempBuffer][..tempBufferIndex];
      retired := retired + tempBufferSize;
      tempBuffer := expanded;
      tempBufferSize := ToInt32(newSize);
      return true;
    }

    /** Copy the user's bytes behind the pending ones; a failed copy drops them all. */
    method CopyIn(chunk: seq<Byte>, env: WriteEnv, ghost w: seq<Entry>, ghost msgs: seq<seq<Byte>>)
      returns (ok: bool)
      requires Holding(w, msgs) && onGoingWrite && tempBufferIndex + |chunk| <= tempBufferSize
      modifies `tempBuffer, `tempBufferIndex, `tempBufferSize, `onGoingWrite, `lens, heap
      ensures Holding(w, msgs)
      ensures ok == onGoingWrite == (|chunk| == 0 || env.copy)
      ensures ok ==> Pending() == old(Pending()) + chunk && tempBufferSize == old(tempBufferSize)
      ensures ok ==> tempBufferIndex == old(tempBufferIndex) + |chunk| && lens == old(lens) + [|chunk|]
    {
      ghost var live := heap.live;
      if |chunk| > 0 && !env.copy {
        OwnsFree(live, w, msgs, tempBuffer);
        heap.Kfree(tempBuffer);
        onGoingWrite := false;
        tempBuffer, tempBufferIndex, tempBufferSize := 0, 0, 0;
        return false;
      }
      heap.Store(tempBuffer, tempBufferIndex, chunk);
      OwnsReplace(live, heap.live, w, msgs, tempBuffer, tempBuffer);
      tempBufferIndex := ToInt32(tempBufferIndex + |chunk|);
      lens := lens + [|chunk|];
      return true;
    }

    /** Drop the scratch buffer at the end of a message, keeping the window's blocks. */
    method CloseScratch(reset: bool, ghost w: seq<Entry>, ghost msgs: seq<seq<Byte>>)
      requires Holding(w, msgs) && onGoingWrite
      modifies `tempBuffer, `tempBufferIndex, `tempBufferSize, `onGoingWrite, heap
      ensures Holding(w, msgs) && !onGoingWrite
    {
      OwnsFree(heap.live, w, msgs, tempBuffer);
      heap.Kfree(tempBuffer);
      onGoingWrite := false;
      if reset {
        tempBuffer, tempBufferIndex, tempBufferSize := 0, 0, 0;
      }
    }

    /** A copy of the collected message in a block of its own. */
    method CopyOut(env: WriteEnv, ghost w: seq<Entry>, ghost msgs: seq<seq<Byte>>) returns (p: nat)
      requires Holding(w, msgs) && onGoingWrite
      modifies heap
      ensures p == 0 ==> !Granted(env.entry, |old(Pending())|) && Holding(w, msgs)
      ensures p != 0 ==>
                && Granted(env.entry, |old(Pending())|)
                && Holding(w + [Entry(p, tempBufferIndex)], msgs + [old(Pending())])
    {
      ghost var live, text := heap.live, Pending();
      p := heap.Kmalloc(tempBufferIndex, env.entry);
      if p != 0 {
        assert heap.live[p][..0] + text + heap.live[p][|text|..] == text;
        heap.Store(p, 0, heap.live[tempBuffer][..tempBufferIndex]);
        assert heap.live == live[p := text];
        OwnsPush(live, w, msgs, tempBuffer, p, text);
      }
    }

    /** Put the entry into the ring and free the block it evicts. */
    method PushEntry(e: Entry, ghost text: seq<Byte>)
      requires RingValid() && onGoingWrite
      requires Holding(Window(ring.added) + [e], Window(messages) + [text])
      modifies `messages, heap, ring, ring.entry, flag
      ensures Owned() && messages == old(messages) + [text]
    {
      ghost var w, msgs := Window(ring.added) + [e], Window(messages) + [text];
      WindowAppend(ring.added, e);
      WindowAppend(messages, text);
      var evicted := ring.AddEntry(e, flag);
      messages := messages + [text];
      if evicted != 0 {
        assert evicted == w[0].buffptr;
        OwnsPop(heap.live, w, msgs, tempBuffer);
        heap.Kfree(evicted);
      }
    }

    /** Turn the collected bytes into a committed message. */
    method Commit(env: WriteEnv) returns (ok: bool)
      requires Owned() && onGoingWrite
      modifies this, heap, ring, ring.entry, flag
      ensures Owned() && !onGoingWrite
      ensures ok == Granted(env.entry, |old(Pending())|)
      ensures messages == old(messages) + if ok then [old(Pending())] else []
    {
      ghost var text := Pending();
      var p := CopyOut(env, Window(ring.added), Window(messages));
      if p == 0 {
        CloseScratch(false, Window(ring.added), Window(messages));
        return false;
      }
      PushEntry(Entry(p, tempBufferIndex), text);
      CloseScratch(true, Window(ring.added), Window(messages));
      return true;
    }

    /** Collect one chunk in the scratch buffer. */
    method Collect(chunk: seq<Byte>, env: WriteEnv, ghost d: Driver, ghost w: seq<Entry>, ghost msgs: seq<seq<Byte>>)
      returns (outcome: Outcome)
      requires Holding(w, msgs) && |chunk| <= MAX_RW_COUNT
      requires Tracked()
      requires d.pending == Pending() && d.open == onGoingWrite
      modifies `tempBuffer, `tempBufferIndex, `tempBufferSize, `onGoingWrite, `lens, `retired, heap
      ensures Holding(w, msgs) && Tracked()
      ensures onGoingWrite == (outcome == Done)
      ensures outcome == CollectOutcome(d, chunk, env)
      ensures outcome == Done ==> Pending() == d.pending + chunk
    {
      if !onGoingWrite {
        var isOpen := OpenScratch(env, w, msgs);
        if !isOpen {
          return NoMemory;
        }
      }
      outcome := Extend(chunk, env, w, msgs);
    }

    /** Add a chunk to the scratch buffer of an ongoing write. */
    method Extend(chunk: seq<Byte>, env: WriteEnv, ghost w: seq<Entry>, ghost msgs: seq<seq<Byte>>)
      returns (outcome: Outcome)
      requires Holding(w, msgs) && onGoingWrite && Tracked() && |chunk| <= MAX_RW_COUNT
      modifies `tempBuffer, `tempBufferIndex, `tempBufferSize, `onGoingWrite, `lens, `retired, heap
      ensures Holding(w, msgs) && Tracked()
      ensures onGoingWrite == (outcome == Done)
      ensures outcome == ExtendOutcome(|old(Pending())|, |chunk|, env)
      ensures outcome == Done ==> Pending() == old(Pending()) + chunk
    {
      assert |Pending()| == tempBufferIndex;
      TallySnoc(lens, tempBufferIndex, retired, |chunk|);
      var grown := GrowScratch(|chunk|, env, w, msgs);
      if !grown {
        return NoMemory;
      }
      var copied := CopyIn(chunk, env, w, msgs);
      return if copied then Done else BadCopy;
    }

    /** Does the collected text end in a newline? */
    method IsComplete(ghost w: seq<Entry>, ghost msgs: seq<seq<Byte>>) returns (complete: bool)
      requires Holding(w, msgs) && onGoingWrite
      ensures complete == EndsLine(Pending())
    {
      complete := tempBufferIndex > 0 && heap.live[tempBuffer][tempBufferIndex - 1] == NEWLINE;
    }

    /** `aesd_write`. */
    method Write(chunk: seq<Byte>, env: WriteEnv, fPos: int) returns (outcome: Outcome, newPos: int)
      requires Valid() && |chunk| <= MAX_RW_COUNT
      modifies this, heap, ring, ring.entry, flag
      ensures Valid()
      ensures outcome == WriteOutcome(old(Abs()), chunk, env)
      ensures Abs() == AfterWrite(old(Abs()), chunk, outcome)
      ensures newPos == MoveBy(fPos, Accepted(outcome, chunk))
      ensures newPos == fPos + if outcome == Done then |chunk| else 0
      ensures env.scratch && env.grow && env.copy && env.entry ==>
                (outcome == Done <==> |old(Pending())| + |chunk| <= KMALLOC_LIMIT)
    {
      WritePreserves(Abs(), chunk, env);
      WriteOutcomeIff(Abs(), chunk, env);
      outcome := WriteChunk(chunk, env);
      newPos := if outcome == Done then fPos + |chunk| else fPos;
    }

    method WriteChunk(chunk: seq<Byte>, env: WriteEnv) returns (outcome: Outcome)
      requires Owned() && Tracked() && |chunk| <= MAX_RW_COUNT
      modifies this, heap, ring, ring.entry, flag
      ensures Owned() && Tracked()
      ensures outcome == WriteOutcome(old(Abs()), chunk, env)
      ensures Abs() == AfterWrite(old(Abs()), chunk, outcome)
    {
      ghost var d := Abs();
      outcome := Collect(chunk, env, d, Window(ring.added), Window(messages));
      assert RingValid();
      if outcome == Done {
        var settled := CommitIfComplete(env);
        outcome := if settled then Done else NoMemory;
      }
      assert Pending() == AfterWrite(d, chunk, outcome).pending;
    }

    /** Commit the collected text if it ends in a newline. */
    method CommitIfComplete(env: WriteEnv) returns (ok: bool)
      requires Owned() && Tracked() && onGoingWrite
      modifies this, heap, ring, ring.entry, flag
      ensures Owned() && Tracked()
      ensures onGoingWrite == !EndsLine(old(Pending()))
      ensures ok == (onGoingWrite || Granted(env.entry, |old(Pending())|))
      ensures onGoingWrite ==> Pending() == old(Pending()) && messages == old(messages)
      ensures !onGoingWrite ==> messages == old(messages) + if ok then [old(Pending())] else []
    {
      var complete := IsComplete(Window(ring.added), Window(messages));
      ok := true;
      if complete {
        ok := Commit(env);
      }
    }

    /** The ring as a reader sees it: `w` in order, then unused slots; entry `k` of `w` points at
        a live block that holds `msgs[k]`. */
    ghost predicate Shows(w: seq<Entry>, msgs: seq<seq<Byte>>)
      reads heap, ring, ring.entry
    {
      && ring.entry.Length == CAPACITY && ring.outOffs < CAPACITY
      && |w| == |msgs| <= CAPACITY
      && ring.Around() == w + Blank(CAPACITY - |w|)
      && (forall k :: 0 <= k < |w| ==>
            w[k].size == |msgs[k]| && w[k].buffptr in heap.live && heap.live[w[k].buffptr] == msgs[k])
      && 0 !in heap.live
      && (forall k :: 0 <= k < |w| ==> 0 < |msgs[k]| <= KMALLOC_LIMIT)
    }

    lemma ShowsWindow()
      requires Valid()
      ensures Shows(Window(ring.added), Window(messages))
    {
      AroundAlone(ring, flag);
      assert Owns(heap.live, Window(ring.added), Window(messages), if onGoingWrite then tempBuffer else 0);
    }

    /** The ring's sizes in terms of the messages. */
    lemma ShownSizes(w: seq<Entry>, msgs: seq<seq<Byte>>)
      requires Shows(w, msgs)
      ensures EntrySizes(ring.Around()) == Sizes(msgs) + Zeros(CAPACITY - |msgs|)
      ensures Total(EntrySizes(ring.Around())) == |Flatten(msgs)| < TWO31
      ensures |Flatten(msgs)| > 0 <==> msgs != []
    {
      assert EntrySizes(ring.Around()) == Sizes(msgs) + Zeros(CAPACITY - |msgs|);
      FlattenBounds(msgs);
      PrefixPadded(Sizes(msgs), CAPACITY - |msgs|, CAPACITY);
      FlattenTotal(msgs);
    }

    /** A hit in the ring is a hit in the messages, in the block of the message it names. */
    lemma ShownHit(w: seq<Entry>, msgs: seq<seq<Byte>>, p: nat, c: nat, o: nat)
      requires Shows(w, msgs)
      requires Holds(EntrySizes(ring.Around()), p, c, o)
      ensures c < |msgs| && Holds(Sizes(msgs), p, c, o)
      ensures ring.entry[(ring.outOffs + c) % CAPACITY] == w[c]
    {
      ShownSizes(w, msgs);
      PrefixPadded(Sizes(msgs), CAPACITY - |msgs|, c);
      assert ring.Around()[c] == ring.entry[(ring.outOffs + c) % CAPACITY];
    }

    /** `aesd_read`. A copy from outside every live block is reported as `Wild`. */
    method Read(fPos: int, count: nat, copy: bool) returns (reply: Reply, newPos: int)
      requires Valid() && count < TWO64
      ensures reply == ReadReply(Abs(), ToSizeT(fPos), count, copy)
      ensures reply == Wild <==> messages == [] && ToSizeT(fPos) != 0 && count > 0
      ensures newPos == MoveBy(fPos, Moved(reply))
      ensures newPos == fPos + if reply.Data? then |reply.bytes| else 0
    {
      ShowsWindow();
      reply := ReadAt(ToSizeT(fPos), count, copy, Window(ring.added), Window(messages));
      newPos := if reply.Data? then fPos + |reply.bytes| else fPos;
    }

    method ReadAt(p: nat, count: nat, copy: bool, ghost w: seq<Entry>, ghost msgs: seq<seq<Byte>>)
      returns (reply: Reply)
      requires Shows(w, msgs) && p < TWO64 && count < TWO64
      ensures reply == WindowReply(msgs, p, count, copy)
      ensures reply == Wild <==> msgs == [] && p != 0 && count > 0
    {
      ShownSizes(w, msgs);
      var found, c := ring.FindEntry(p);
      if found.None? {
        return Data([]);
      }
      var (slot, offset) := found.value;
      if msgs != [] {
        ShownHit(w, msgs, p, c, offset);
      } else {
        assert ring.entry[slot] == ring.Around()[0] == EMPTY;
      }
      var left := ToSizeT(ring.entry[slot].size - offset);
      var n := if left < count then left else count;
      if msgs != [] {
        ReplyWithin(msgs, p, c, offset, count, copy, n);
      }
      if n == 0 {
        return Data([]);
      }
      var source := ring.entry[slot].buffptr;
      if source !in heap.live || offset + n > |heap.live[source]| {
        return Wild;
      }
      if !copy {
        return Fault;
      }
      return Data(heap.live[source][offset..offset + n]);
    }

    /** The AESDCHAR_IOCSEEKTO branch of `aesd_unlockedioctl`. */
    method SeekTo(cmd: nat, offset: nat) returns (position: Option<int>)
      requires Valid() && offset < TWO32
      ensures position == SeekPosition(Abs(), cmd, offset)
    {
      ShowsWindow();
      position := SeekWithin(cmd, offset, Window(ring.added), Window(messages));
    }

    method SeekWithin(cmd: nat, offset: nat, ghost w: seq<Entry>, ghost msgs: seq<seq<Byte>>)
      returns (position: Option<int>)
      requires Shows(w, msgs)
      ensures position == WindowSeek(msgs, cmd, offset)
    {
      if cmd >= CAPACITY {
        return None;
      }
      ShownSizes(w, msgs);
      var fileOffset := ring.BytesBefore(cmd);
      PrefixPadded(Sizes(msgs), CAPACITY - |msgs|, cmd);
      return Some(ToInt32(fileOffset + offset));
    }

    /** `aesd_cleanup_module`: free the block of every slot that still has one. Of everything ever
        allocated, only the scratch buffer of an unfinished message is left behind. */
    method Cleanup()
      requires Valid()
      modifies heap, ring.entry
      ensures heap.Valid()
      ensures heap.live.Keys == if onGoingWrite then {tempBuffer} else {}
      ensures heap.freed == old(heap.freed + Addresses(Window(ring.added)))
    {
      ShowsWindow();
      ghost var t := if onGoingWrite then tempBuffer else 0;
      OwnsExactly(heap.live, Window(ring.added), Window(messages), t);
      RemainingRotate(heap.live, ring.entry[..], ring.outOffs, Window(ring.added),
                      CAPACITY - |Window(ring.added)|, Window(messages), t);
      ghost var live, freed := heap.live.Keys, heap.freed;
      FreeSlots(t);
      Difference(live, freed, heap.live.Keys, heap.freed, Addresses(Window(ring.added)));
    }

    /** The freeing loop of the cleanup. */
    method FreeSlots(ghost t: nat)
      requires heap.Valid() && ring.entry.Length == CAPACITY
      requires Remaining(heap.live, ring.entry[..], 0, t)
      modifies heap, ring.entry
      ensures heap.Valid()
      ensures heap.live.Keys == if t != 0 then {t} else {}
      ensures heap.freed + heap.live.Keys == old(heap.freed + heap.live.Keys)
    {
      for i := 0 to CAPACITY
        invariant heap.Valid()
        invariant Remaining(heap.live, ring.entry[..], i, t)
        invariant heap.freed + heap.live.Keys == old(heap.freed + heap.live.Keys)
      {
        RemainingStep(heap.live, ring.entry[..], i, t);
        if ring.entry[i].buffptr != 0 {
          ghost var slots := ring.entry[..];
          heap.Kfree(ring.entry[i].buffptr);
          ring.entry[i] := Entry(0, ring.entry[i].size);
          assert ring.entry[..] == slots[i := Entry(0, slots[i].size)];
        }
      }
    }

    lemma SeekThenHit(w: seq<Entry>, msgs: seq<seq<Byte>>, c: nat, o: nat) returns (p: nat)
      requires Shows(w, msgs) && c < |msgs| && o < |msgs[c]|
      ensures WindowSeek(msgs, c, o) == Some(p)
      ensures p < |Flatten(msgs)| && Flatten(msgs)[p] == msgs[c][o]
      ensures Holds(EntrySizes(ring.Around()), p, c, o)
      ensures ring.entry[(ring.outOffs + c) % CAPACITY] == w[c]
      ensures forall c': nat, o': nat :: Holds(EntrySizes(ring.Around()), p, c', o') ==> c' == c && o' == o
    {
      ShownSizes(w, msgs);
      p := Prefix(Sizes(msgs), c) + o;
      HoldsByte(msgs, p, c, o);
      PrefixPadded(Sizes(msgs), CAPACITY - |msgs|, c);
      ShownHit(w, msgs, p, c, o);
      var sizes := EntrySizes(ring.Around());
      forall c': nat, o': nat | Holds(sizes, p, c', o') ensures c' == c && o' == o {
        HoldsUnique(sizes, p, c, o, c', o');
      }
    }

    method SeekThenFindWithin(c: nat, o: nat, ghost w: seq<Entry>, ghost msgs: seq<seq<Byte>>)
      returns (p: nat, slot: nat, byte: int)
      requires Shows(w, msgs) && c < |msgs| && o < |msgs[c]|
      ensures WindowSeek(msgs, c, o) == Some(p) && p < |Flatten(msgs)| && Flatten(msgs)[p] == msgs[c][o]
      ensures slot == (ring.outOffs + c) % CAPACITY && byte == o
      ensures ring.entry[slot] == w[c]
    {
      ghost var q := SeekThenHit(w, msgs, c, o);
      ShownSizes(w, msgs);
      var position := SeekWithin(c, o, w, msgs);
      p := position.value;
      var found, _ := ring.FindEntry(p);
      slot, byte := found.value.0, found.value.1;
    }

    /** Seeking to byte `o` of command `c` and looking the position up finds that command's slot
        and that byte. */
    method SeekThenFind(c: nat, o: nat) returns (p: nat, slot: nat, byte: int)
      requires Valid() && c < |Window(messages)| && o < |Window(messages)[c]|
      ensures SeekPosition(Abs(), c, o) == Some(p)
      ensures p < |Readable(Abs())| && Readable(Abs())[p] == Window(messages)[c][o]
      ensures slot == (ring.outOffs + c) % CAPACITY && byte == o
      ensures ring.entry[slot].buffptr in heap.live && heap.live[ring.entry[slot].buffptr] == Window(messages)[c]
    {
      ShowsWindow();
      p, slot, byte := SeekThenFindWithin(c, o, Window(ring.added), Window(messages));
    }

    lemma HitThenSeek(w: seq<Entry>, msgs: seq<seq<Byte>>, p: nat, c: nat, o: nat)
      requires Shows(w, msgs) && Holds(EntrySizes(ring.Around()), p, c, o)
      ensures c < |msgs| && o < |msgs[c]| && p < |Flatten(msgs)| && Flatten(msgs)[p] == msgs[c][o]
      ensures WindowSeek(msgs, c, o) == Some(p)
      ensures ring.entry[(ring.outOffs + c) % CAPACITY] == w[c]
    {
      ShownSizes(w, msgs);
      ShownHit(w, msgs, p, c, o);
      WindowSeekHolds(msgs, c, o);
    }

    method FindThenSeekWithin(p: nat, ghost w: seq<Entry>, ghost msgs: seq<seq<Byte>>)
      returns (slot: nat, cmd: nat, byte: nat, position: Option<int>)
      requires Shows(w, msgs) && p < |Flatten(msgs)|
      ensures slot < CAPACITY && cmd == CommandAt(ring.outOffs, slot)
      ensures cmd < |msgs| && byte < |msgs[cmd]| && msgs[cmd][byte] == Flatten(msgs)[p]
      ensures ring.entry[slot] == w[cmd]
      ensures position == Some(p)
    {
      ShownSizes(w, msgs);
      var found, c := ring.FindEntry(p);
      byte := found.value.1;
      HitThenSeek(w, msgs, p, c, byte);
      slot := found.value.0;
      cmd := CommandAt(ring.outOffs, slot);
      CommandAtSlot(ring.outOffs, c);
      position := SeekWithin(cmd, byte, w, msgs);
    }

    /** Looking a position up and seeking to the command and byte found leads back to it. */
    method FindThenSeek(p: nat) returns (slot: nat, cmd: nat, byte: nat, position: Option<int>)
      requires Valid() && p < |Readable(Abs())|
      ensures slot < CAPACITY && cmd == CommandAt(ring.outOffs, slot)
      ensures cmd < |Window(messages)| && byte < |Window(messages)[cmd]|
      ensures ring.entry[slot].buffptr in heap.live && heap.live[ring.entry[slot].buffptr] == Window(messages)[cmd]
      ensures Window(messages)[cmd][byte] == Readable(Abs())[p]
      ensures position == Some(p)
    {
      ShowsWindow();
      slot, cmd, byte, position := FindThenSeekWithin(p, Window(ring.added), Window(messages));
    }
  }

  /** The bytes an entry points at. */
  function ContentOf(live: map<nat, seq<Byte>>): Entry -> seq<Byte> {
    (e: Entry) => if e.buffptr in live then live[e.buffptr] else []
  }

  lemma OwnedContent(live: map<nat, seq<Byte>>, w: seq<Entry>, msgs: seq<seq<Byte>>, t: nat)
    requires Owns(live, w, msgs, t)
    ensures Bytes(ContentOf(live), w) == msgs && ContentOf(live)(EMPTY) == []
  {
  }

  /** The bytes found by walking the ring from its read index are the readable bytes of the log. */
  lemma RingStreamIsReadable(dev: Device)
    requires dev.Valid()
    ensures dev.ring.outOffs < CAPACITY
    ensures Flatten(Bytes(ContentOf(dev.heap.live), dev.ring.Around())) == Readable(dev.Abs())
  {
    OwnedContent(dev.heap.live, Window(dev.ring.added), Window(dev.messages),
                 if dev.onGoingWrite then dev.tempBuffer else 0);
    AroundIsWindow(dev.ring, dev.flag, ContentOf(dev.heap.live));
  }

  /** All the capacities given up while a message is collected sum to less than the one it has. */
  lemma ScratchAmortised(dev: Device)
    requires dev.Valid() && dev.onGoingWrite
    ensures dev.retired == Retired(dev.lens) && Sum(dev.lens) == |dev.Abs().pending|
    ensures dev.retired + STARTING_SIZE <= dev.tempBufferSize == |dev.heap.live[dev.tempBuffer]|
  {
    GrowthAmortised(dev.lens);
  }

  /** Between calls exactly one block is live for each message of the window, plus one for the
      message being collected; everything else ever allocated has been freed. */
  lemma LiveBlocks(dev: Device)
    requires dev.Valid()
    ensures dev.heap.live.Keys
         == Addresses(Window(dev.ring.added)) + if dev.onGoingWrite then {dev.tempBuffer} else {}
    ensures |dev.heap.live.Keys| == |Window(dev.messages)| + if dev.onGoingWrite then 1 else 0
    ensures forall a :: 1 <= a < dev.heap.next ==> (a in dev.heap.live) != (a in dev.heap.freed)
  {
    OwnsExactly(dev.heap.live, Window(dev.ring.added), Window(dev.messages),
                if dev.onGoingWrite then dev.tempBuffer else 0);
  }

  predicate WithinKernelLimits(op: Op) {
    match op
    case WriteOp(_, chunk, _) => |chunk| <= MAX_RW_COUNT
    case ReadOp(_, count, _) => count < TWO64
    case SeekOp(_, _, offset) => offset < TWO32
  }

  predicate AllWithinKernelLimits(ops: seq<Op>) {
    |ops| > 0 ==> WithinKernelLimits(ops[0]) && AllWithinKernelLimits(ops[1..])
  }

  /** Every run of the device, whatever is interleaved and whatever fails, is the run of the log:
      same answers, same file positions, same messages and pending bytes. */
  method Execute(dev: Device, ops: seq<Op>, pos: map<nat, int>) returns (answers: seq<Answer>, pos': map<nat, int>)
    requires dev.Valid()
    requires AllWithinKernelLimits(ops)
    modifies dev, dev.heap, dev.ring, dev.ring.entry, dev.flag
    ensures dev.Valid()
    ensures World(dev.Abs(), pos') == Run(World(old(dev.Abs()), pos), ops)
    ensures answers == Answers(World(old(dev.Abs()), pos), ops)
    decreases |ops|
  {
    if |ops| == 0 {
      return [], pos;
    }
    var answer, pos1 := Perform(dev, ops[0], pos);
    var rest;
    rest, pos' := Execute(dev, ops[1..], pos1);
    answers := [answer] + rest;
  }

  /** One entry-point call on one open file. */
  method Perform(dev: Device, op: Op, pos: map<nat, int>) returns (answer: Answer, pos': map<nat, int>)
    requires dev.Valid() && WithinKernelLimits(op)
    modifies dev, dev.heap, dev.ring, dev.ring.entry, dev.flag
    ensures dev.Valid()
    ensures answer == AnswerTo(World(old(dev.Abs()), pos), op)
    ensures World(dev.Abs(), pos') == Step(World(old(dev.Abs()), pos), op)
  {
    var here := if op.fd in pos then pos[op.fd] else 0;
    pos' := pos;
    match op {
      case WriteOp(fd, chunk, env) =>
        var outcome, there := dev.Write(chunk, env, here);
        answer, pos' := Wrote(outcome), pos[fd := there];
      case ReadOp(fd, count, copy) =>
        var reply, there := dev.Read(here, count, copy);
        answer, pos' := Got(reply), pos[fd := there];
      case SeekOp(fd, cmd, offset) =>
        var position := dev.SeekTo(cmd, offset);
        answer := Sought(position);
        if position.Some? {
          pos' := pos[fd := position.value];
        }
    }
  }
}
