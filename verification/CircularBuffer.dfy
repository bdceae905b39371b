/** aesd-circular-buffer.c: a ring of ten entries whose fill flag is a function-level static. */
module CircularBuffer {
  import opened Options
  import opened ByteStream
  import opened CInt

  const CAPACITY: nat := 10

  /** `buffptr` is an address, 0 being NULL. */
  datatype Entry = Entry(buffptr: nat, size: nat)

  const EMPTY := Entry(0, 0)

  /** The last ten values of a log, or all of them if there are fewer. */
  function Window<T>(log: seq<T>): (w: seq<T>)
    ensures |w| == if |log| < CAPACITY then |log| else CAPACITY
  {
    if |log| <= CAPACITY then log else log[|log| - CAPACITY..]
  }

  /** The most recent value written to slot `j` by a round-robin writer. */
  function Latest(added: seq<Entry>, j: nat): Entry
    requires j < CAPACITY
  {
    var n := |added|;
    var k := n - n % CAPACITY + j - (if j < n % CAPACITY then 0 else CAPACITY);
    if k < 0 then EMPTY else added[k]
  }

  function Slots(added: seq<Entry>): (s: seq<Entry>)
    ensures |s| == CAPACITY
    ensures forall j :: 0 <= j < CAPACITY ==> s[j] == Latest(added, j)
  {
    seq(CAPACITY, j requires 0 <= j < CAPACITY => Latest(added, j))
  }

  /** The slots in ring order, starting at slot `out`. */
  function Rotate(slots: seq<Entry>, out: nat): (r: seq<Entry>)
    requires out <= |slots|
    ensures |r| == |slots|
  {
    slots[out..] + slots[..out]
  }

  function Blank(n: nat): (s: seq<Entry>)
    ensures |s| == n && forall i :: 0 <= i < n ==> s[i] == EMPTY
  {
    seq(n, _ => EMPTY)
  }

  function EntrySizes(s: seq<Entry>): (sizes: seq<nat>)
    ensures |sizes| == |s|
    ensures forall i :: 0 <= i < |s| ==> sizes[i] == s[i].size
  {
    seq(|s|, i requires 0 <= i < |s| => s[i].size)
  }

  function Bytes(content: Entry -> seq<Byte>, s: seq<Entry>): (parts: seq<seq<Byte>>)
    ensures |parts| == |s|
    ensures forall i :: 0 <= i < |s| ==> parts[i] == content(s[i])
  {
    seq(|s|, i requires 0 <= i < |s| => content(s[i]))
  }

  lemma SlotsAppend(added: seq<Entry>, e: Entry)
    ensures Slots(added + [e]) == Slots(added)[|added| % CAPACITY := e]
  {
  }

  /** Reading from the write index yields the window, oldest first, after the unused slots. */
  lemma RotateAtIn(added: seq<Entry>)
    ensures Rotate(Slots(added), |added| % CAPACITY)
         == Blank(CAPACITY - |Window(added)|) + Window(added)
  {
  }

  /** Before the ring has filled, reading from slot 0 yields the window before the unused slots. */
  lemma RotateAtZero(added: seq<Entry>)
    requires |added| < CAPACITY
    ensures Rotate(Slots(added), 0) == Window(added) + Blank(CAPACITY - |added|)
  {
  }

  lemma {:induction false} BlankFlattens(content: Entry -> seq<Byte>, n: nat)
    requires content(EMPTY) == []
    ensures Flatten(Bytes(content, Blank(n))) == []
  {
    if n > 0 {
      assert Bytes(content, Blank(n))[..n - 1] == Bytes(content, Blank(n - 1));
      BlankFlattens(content, n - 1);
    }
  }

  lemma BytesAppend(content: Entry -> seq<Byte>, a: seq<Entry>, b: seq<Entry>)
    ensures Flatten(Bytes(content, a + b)) == Flatten(Bytes(content, a)) + Flatten(Bytes(content, b))
  {
    assert Bytes(content, a + b) == Bytes(content, a) + Bytes(content, b);
    FlattenAppend(Bytes(content, a), Bytes(content, b));
  }

  /** `static int hasBufferBeenFilled`: one flag for every buffer of the program. */
  class FillFlag {
    var hasBufferBeenFilled: bool

    constructor ()
      ensures !hasBufferBeenFilled
    {
      hasBufferBeenFilled := false;
    }
  }

  class Ring {
    const entry: array<Entry>
    var inOffs: nat
    var outOffs: nat
    /** Every entry added since the last initialisation. */
    ghost var added: seq<Entry>

    /** What holds of a buffer whatever other buffers share its flag. */
    ghost predicate Valid(flag: FillFlag)
      reads this, entry, flag
    {
      && entry.Length == CAPACITY
      && entry[..] == Slots(added)
      && inOffs == |added| % CAPACITY
      && (outOffs == inOffs || (outOffs == 0 && |added| < CAPACITY))
      && (outOffs == inOffs && |added| > 0 ==> flag.hasBufferBeenFilled)
    }

    /** The ten entries in the order in which readers visit them. */
    function Around(): (s: seq<Entry>)
      reads this, entry
      requires entry.Length == CAPACITY && outOffs < CAPACITY
      ensures |s| == CAPACITY
    {
      Rotate(entry[..], outOffs)
    }

    constructor (flag: FillFlag)
      ensures Valid(flag) && added == [] && outOffs == 0 && fresh(entry)
    {
      entry := new Entry[CAPACITY](_ => EMPTY);
      inOffs, outOffs := 0, 0;
      added := [];
    }

    /** `aesd_circular_buffer_init`: zero the whole structure, leaving the static flag alone. */
    method Init(flag: FillFlag)
      requires entry.Length == CAPACITY
      modifies this, entry
      ensures Valid(flag) && added == [] && outOffs == 0
    {
      for i := 0 to CAPACITY
        invariant forall j :: 0 <= j < i ==> entry[j] == EMPTY
      {
        entry[i] := EMPTY;
      }
      inOffs, outOffs := 0, 0;
      added := [];
      assert entry[..] == Slots([]);
    }

    /** `aesd_circular_buffer_add_entry`. */
    method AddEntry(e: Entry, flag: FillFlag) returns (evicted: nat)
      requires Valid(flag)
      modifies this, entry, flag
      ensures Valid(flag)
      ensures added == old(added) + [e]
      ensures evicted == if |old(added)| < CAPACITY then 0 else old(added)[|old(added)| - CAPACITY].buffptr
      ensures flag.hasBufferBeenFilled == (old(flag.hasBufferBeenFilled) || |added| % CAPACITY == 0)
      ensures !old(flag.hasBufferBeenFilled) ==> outOffs == 0
    {
      SlotsAppend(added, e);
      evicted := entry[inOffs].buffptr;
      entry[inOffs] := e;
      if flag.hasBufferBeenFilled && outOffs == inOffs {
        outOffs := outOffs + 1;
        if outOffs == CAPACITY {
          outOffs := 0;
        }
      }
      inOffs := inOffs + 1;
      if inOffs == CAPACITY {
        inOffs := 0;
        flag.hasBufferBeenFilled := true;
      }
      added := added + [e];
    }

    /** `aesd_circular_buffer_find_entry_offset_for_fpos`: the slot and the byte within it.
        The counters are 32-bit `int`s compared with a `size_t`, so the final test sees
        2^64 - 1 rather than -1 when every slot is empty. */
    method FindEntry(charOffset: int) returns (r: Option<(nat, int)>, ghost c: nat)
      requires entry.Length == CAPACITY && outOffs < CAPACITY
      requires 0 <= charOffset < TWO64
      requires Total(EntrySizes(Around())) < TWO31
      ensures Total(EntrySizes(Around())) > 0 ==> (r.None? <==> charOffset >= Total(EntrySizes(Around())))
      ensures Total(EntrySizes(Around())) > 0 && r.Some? ==>
                && r.value.0 == (outOffs + c) % CAPACITY && r.value.1 >= 0
                && Holds(EntrySizes(Around()), charOffset, c, r.value.1)
      ensures Total(EntrySizes(Around())) == 0 ==> r == Some((outOffs, charOffset))
    {
      ghost var sizes := EntrySizes(Around());
      var numChars, prevNumChars := 0, 0;
      var entryIndex := outOffs;
      var processed := 0;
      c := 0;
      while processed < CAPACITY
        invariant processed <= CAPACITY
        invariant entryIndex == (outOffs + processed) % CAPACITY
        invariant numChars == Prefix(sizes, processed) <= charOffset
        invariant 0 <= prevNumChars <= numChars
        invariant Total(sizes) == 0 ==> prevNumChars == 0
        decreases CAPACITY - processed
      {
        PrefixMonotone(sizes, processed + 1, CAPACITY);
        assert entry[entryIndex].size == sizes[processed];
        prevNumChars := numChars;
        numChars := ToInt32(numChars + entry[entryIndex].size);
        if ToSizeT(numChars) > charOffset {
          c := processed;
          assert Holds(sizes, charOffset, c, charOffset - prevNumChars);
          break;
        }
        processed := processed + 1;
        entryIndex := entryIndex + 1;
        if entryIndex == CAPACITY {
          entryIndex := 0;
        }
      }
      if ToSizeT(ToInt32(numChars - 1)) < charOffset {
        return None, c;
      }
      return Some((entryIndex, ToSizeT(charOffset - prevNumChars))), c;
    }

    /** The counting loop of the seek ioctl: the bytes in the first `cmd` entries. */
    method BytesBefore(cmd: nat) returns (fileOffset: int)
      requires entry.Length == CAPACITY && outOffs < CAPACITY && cmd < CAPACITY
      requires Total(EntrySizes(Around())) < TWO31
      ensures fileOffset == Prefix(EntrySizes(Around()), cmd)
    {
      ghost var sizes := EntrySizes(Around());
      var processed := 0;
      var entryIndex := outOffs;
      fileOffset := 0;
      while processed < CAPACITY
        invariant processed <= cmd
        invariant entryIndex == (outOffs + processed) % CAPACITY
        invariant fileOffset == Prefix(sizes, processed)
        decreases CAPACITY - processed
      {
        if processed == cmd {
          break;
        }
        PrefixMonotone(sizes, processed + 1, CAPACITY);
        assert entry[entryIndex].size == sizes[processed];
        fileOffset := ToInt32(fileOffset + entry[entryIndex].size);
        processed := processed + 1;
        entryIndex := (entryIndex + 1) % CAPACITY;
      }
    }
  }

  /** The byte stream of any valid buffer, whoever set its flag, is that of its last ten entries. */
  lemma AroundIsWindow(ring: Ring, flag: FillFlag, content: Entry -> seq<Byte>)
    requires ring.Valid(flag)
    requires content(EMPTY) == []
    ensures Flatten(Bytes(content, ring.Around())) == Flatten(Bytes(content, Window(ring.added)))
  {
    var w := Window(ring.added);
    if ring.outOffs == ring.inOffs {
      RotateAtIn(ring.added);
      BytesAppend(content, Blank(CAPACITY - |w|), w);
    } else {
      RotateAtZero(ring.added);
      BytesAppend(content, w, Blank(CAPACITY - |w|));
    }
    BlankFlattens(content, CAPACITY - |w|);
  }

  /** While no other buffer sets the flag early, the window comes first and the unused slots last. */
  lemma AroundAlone(ring: Ring, flag: FillFlag)
    requires ring.Valid(flag) && flag.hasBufferBeenFilled == (|ring.added| >= CAPACITY)
    ensures ring.outOffs < CAPACITY
    ensures ring.Around() == Window(ring.added) + Blank(CAPACITY - |Window(ring.added)|)
  {
    if |ring.added| < CAPACITY {
      RotateAtZero(ring.added);
    } else {
      RotateAtIn(ring.added);
    }
  }

  /** One call on one of several buffers. */
  datatype Call = InitCall(buffer: nat) | AddCall(buffer: nat, e: Entry)

  /** The entries buffer `b` has been given since its own last initialisation. */
  function AddedSinceInit(calls: seq<Call>, b: nat): seq<Entry> {
    if |calls| == 0 then [] else
    var before := AddedSinceInit(calls[..|calls| - 1], b);
    match calls[|calls| - 1]
    case InitCall(x) => if x == b then [] else before
    case AddCall(x, e) => if x == b then before + [e] else before
  }

  /** Any interleaving of initialisations and additions on any number of buffers that share the
      one flag leaves every buffer with the byte stream of its own last ten entries. */
  method RunBuffers(rings: seq<Ring>, flag: FillFlag, calls: seq<Call>)
    requires forall i :: 0 <= i < |rings| ==> rings[i].Valid(flag) && rings[i].added == []
    requires forall i, j :: 0 <= i < j < |rings| ==> rings[i] != rings[j] && rings[i].entry != rings[j].entry
    requires forall k :: 0 <= k < |calls| ==> calls[k].buffer < |rings|
    modifies flag, rings, set i | 0 <= i < |rings| :: rings[i].entry
    ensures forall i :: 0 <= i < |rings| ==> rings[i].Valid(flag) && rings[i].added == AddedSinceInit(calls, i)
    ensures forall i, content: Entry -> seq<Byte> :: 0 <= i < |rings| && content(EMPTY) == [] ==>
              && rings[i].Valid(flag)
              && Flatten(Bytes(content, rings[i].Around()))
                 == Flatten(Bytes(content, Window(AddedSinceInit(calls, i))))
  {
    for k := 0 to |calls|
      invariant forall i :: 0 <= i < |rings| ==>
                  rings[i].Valid(flag) && rings[i].added == AddedSinceInit(calls[..k], i)
    {
      assert calls[..k + 1][..k] == calls[..k];
      var b := calls[k].buffer;
      match calls[k] {
        case InitCall(_) => rings[b].Init(flag);
        case AddCall(_, e) => var _ := rings[b].AddEntry(e, flag);
      }
    }
    assert calls[..|calls|] == calls;
    forall i, content: Entry -> seq<Byte> | 0 <= i < |rings| && content(EMPTY) == []
      ensures Flatten(Bytes(content, rings[i].Around()))
           == Flatten(Bytes(content, Window(AddedSinceInit(calls, i))))
    {
      AroundIsWindow(rings[i], flag, content);
    }
  }
}
