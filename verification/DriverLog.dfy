/** What the character device promises: an append-only log of newline-terminated messages,
    read through a window of the last ten. */
module DriverLog {
  import opened Options
  import opened ByteStream
  import opened CInt
  import opened CircularBuffer
  import opened KernelHeap

  const STARTING_SIZE: nat := 32

  /** The kernel clamps every write to this many bytes. */
  const MAX_RW_COUNT: nat := 0x7FFF_F000

  // ---- Scratch capacity -----------------------------------------------------------------

  function Grow(c: nat, need: nat): (r: nat)
    requires c > 0
    ensures r >= c && r >= need
    decreases need - c
  {
    if c >= need then c else Grow(2 * c, need)
  }

  /** Capacity of a scratch buffer that has had to hold `need` bytes. */
  function Cap(need: nat): nat {
    Grow(STARTING_SIZE, need)
  }

  function Pow2(k: nat): (r: nat)
    ensures r > 0
  {
    if k == 0 then 1 else 2 * Pow2(k - 1)
  }

  lemma {:induction false} Pow2Sum(i: nat, j: nat)
    ensures Pow2(i + j) == Pow2(i) * Pow2(j)
  {
    if i > 0 { Pow2Sum(i - 1, j); }
  }

  /** Growing never skips the first power that suffices. */
  lemma {:induction false} GrowLeast(k: nat, need: nat) returns (m: nat)
    ensures m >= k && Grow(32 * Pow2(k), need) == 32 * Pow2(m) >= need
    ensures m > k ==> 32 * Pow2(m - 1) < need
    decreases need - 32 * Pow2(k)
  {
    if 32 * Pow2(k) >= need {
      m := k;
    } else {
      assert Pow2(k + 1) == 2 * Pow2(k);
      m := GrowLeast(k + 1, need);
    }
  }

  /** The capacity is 32 times a power of two, covers the need, and is the least such number. */
  lemma CapLeast(need: nat)
    ensures exists m: nat :: Cap(need) == 32 * Pow2(m)
    ensures forall j: nat :: 32 * Pow2(j) >= need ==> Cap(need) <= 32 * Pow2(j)
  {
    assert Pow2(0) == 1;
    var m := GrowLeast(0, need);
    forall j: nat | 32 * Pow2(j) >= need
      ensures Cap(need) <= 32 * Pow2(j)
    {
      if j < m {
        Pow2Monotone(j, m - 1);
      } else {
        Pow2Monotone(m, j);
      }
    }
  }

  lemma {:induction false} Pow2Monotone(i: nat, j: nat)
    requires i <= j
    ensures Pow2(i) <= Pow2(j)
  {
    if i < j { Pow2Monotone(i, j - 1); }
  }

  /** Growing in steps ends where growing at once does. */
  lemma {:induction false} GrowTwice(c: nat, a: nat, b: nat)
    requires c > 0 && a <= b
    ensures Grow(Grow(c, a), b) == Grow(c, b)
    decreases a - c
  {
    if c < a { GrowTwice(2 * c, a, b); }
  }

  lemma {:induction false} GrowBound(c: nat, need: nat)
    requires 0 < c
    ensures Grow(c, need) == c || Grow(c, need) >= 2 * c
    ensures Grow(c, need) == c || Grow(c, need) < 2 * need
    decreases need - c
  {
    if c < need { GrowBound(2 * c, need); }
  }

  function Sum(lens: seq<nat>): nat {
    if |lens| == 0 then 0 else Sum(lens[..|lens| - 1]) + lens[|lens| - 1]
  }

  /** The capacity given up when `held` bytes become `needed`. */
  function RetiredBy(held: nat, needed: nat): nat {
    if needed > Cap(held) then Cap(held) else 0
  }

  /** The old capacities summed over all reallocations of a message collected in chunks of the given
      lengths. */
  function Retired(lens: seq<nat>): nat {
    if |lens| == 0 then 0 else
    var before := lens[..|lens| - 1];
    Retired(before) + RetiredBy(Sum(before), Sum(lens))
  }

  /** Chunks of the given lengths amount to `held` bytes and have retired `retired`. */
  predicate Tally(lens: seq<nat>, held: int, retired: nat) {
    held == Sum(lens) && retired == Retired(lens)
  }

  lemma TallySnoc(lens: seq<nat>, held: nat, retired: nat, n: nat)
    requires Tally(lens, held, retired)
    ensures Tally(lens + [n], held + n, retired + RetiredBy(held, held + n))
  {
    assert (lens + [n])[..|lens|] == lens;
  }

  /** Growing is amortised: all the capacities given up add up to less than the final one. */
  lemma {:induction false} GrowthAmortised(lens: seq<nat>)
    ensures Retired(lens) + STARTING_SIZE <= Cap(Sum(lens))
  {
    if |lens| > 0 {
      var before := lens[..|lens| - 1];
      GrowthAmortised(before);
      GrowTwice(STARTING_SIZE, Sum(before), Sum(lens));
      GrowBound(Cap(Sum(before)), Sum(lens));
    }
  }

  // ---- Writing --------------------------------------------------------------------------

  /** `messages` is everything ever committed; `pending` the bytes of the message being
      collected while a write is ongoing (`open`). */
  datatype Driver = Driver(messages: seq<seq<Byte>>, pending: seq<Byte>, open: bool)

  const FRESH := Driver([], [], false)

  /** The answers of the allocator and of the user copy during one write. */
  datatype WriteEnv = WriteEnv(scratch: bool, grow: bool, moves: bool, copy: bool, entry: bool)

  datatype Outcome = Done | NoMemory | BadCopy

  predicate EndsLine(s: seq<Byte>) {
    |s| > 0 && s[|s| - 1] == NEWLINE
  }

  predicate WellFormed(d: Driver) {
    && (!d.open ==> d.pending == [])
    && !EndsLine(d.pending)
    && |d.pending| <= KMALLOC_LIMIT
    && forall i :: 0 <= i < |d.messages| ==> EndsLine(d.messages[i]) && |d.messages[i]| <= KMALLOC_LIMIT
  }

  /** What becomes of adding `more` bytes to the `held` ones of an ongoing write. */
  function ExtendOutcome(held: nat, more: nat, env: WriteEnv): Outcome {
    if held + more > Cap(held) && !Granted(env.grow, Cap(held + more)) then NoMemory
    else if more > 0 && !env.copy then BadCopy
    else Done
  }

  /** What becomes of collecting a chunk in the scratch buffer. */
  function CollectOutcome(d: Driver, chunk: seq<Byte>, env: WriteEnv): Outcome {
    if !d.open && !Granted(env.scratch, STARTING_SIZE) then NoMemory
    else ExtendOutcome(|d.pending|, |chunk|, env)
  }

  /** Which allocation or copy, if any, a write stumbles on. */
  function WriteOutcome(d: Driver, chunk: seq<Byte>, env: WriteEnv): Outcome {
    var text := d.pending + chunk;
    if CollectOutcome(d, chunk, env) == Done && EndsLine(text) && !Granted(env.entry, |text|)
    then NoMemory
    else CollectOutcome(d, chunk, env)
  }

  /** The framing rule: collect until the bytes end in a newline; a failing call drops them. */
  function AfterWrite(d: Driver, chunk: seq<Byte>, outcome: Outcome): Driver {
    var text := d.pending + chunk;
    if outcome != Done then Driver(d.messages, [], false)
    else if EndsLine(text) then Driver(d.messages + [text], [], false)
    else Driver(d.messages, text, true)
  }

  lemma CapWithinLimit(need: nat)
    requires need <= KMALLOC_LIMIT
    ensures Cap(need) <= KMALLOC_LIMIT
  {
    assert Pow2(0) == 1;
    Pow2Sum(11, 11);
    assert Pow2(11) == 2048;
    CapLeast(need);
    assert 32 * Pow2(22) == KMALLOC_LIMIT;
  }

  /** When a write succeeds, and which refusal stops it otherwise: a write succeeds exactly when the text
      stays within the allocator's limit and nothing it needs is refused, and what it needs is a first
      scratch buffer, a larger one when the text outgrows the old, a copy of a non-empty chunk and an
      entry for a finished message. */
  lemma WriteOutcomeIff(d: Driver, chunk: seq<Byte>, env: WriteEnv)
    requires WellFormed(d)
    ensures var text := d.pending + chunk;
            var room := && (d.open || env.scratch) && |text| <= KMALLOC_LIMIT
                        && (|text| <= Cap(|d.pending|) || env.grow);
            && (WriteOutcome(d, chunk, env) == Done
                <==> room && (chunk == [] || env.copy) && (EndsLine(text) ==> env.entry))
            && (WriteOutcome(d, chunk, env) == BadCopy <==> room && chunk != [] && !env.copy)
  {
    CapWithinLimit(|d.pending|);
    if |d.pending + chunk| <= KMALLOC_LIMIT {
      CapWithinLimit(|d.pending + chunk|);
    }
  }

  /** Writing keeps the state well formed, whatever fails. */
  lemma WritePreserves(d: Driver, chunk: seq<Byte>, env: WriteEnv)
    requires WellFormed(d)
    ensures WellFormed(AfterWrite(d, chunk, WriteOutcome(d, chunk, env)))
  {
    CapWithinLimit(|d.pending|);
  }

  lemma {:induction false} PrefixBound(sizes: seq<nat>, c: nat, limit: nat)
    requires c <= |sizes| && forall i :: 0 <= i < |sizes| ==> sizes[i] <= limit
    ensures Prefix(sizes, c) <= c * limit
  {
    if c > 0 { PrefixBound(sizes, c - 1, limit); }
  }

  /** Ten messages never overflow the `int` byte counters. */
  lemma FlattenBounds(msgs: seq<seq<Byte>>)
    requires |msgs| <= CAPACITY
    requires forall k :: 0 <= k < |msgs| ==> 0 < |msgs[k]| <= KMALLOC_LIMIT
    ensures |Flatten(msgs)| < TWO31
    ensures |Flatten(msgs)| > 0 <==> msgs != []
  {
    FlattenTotal(msgs);
    PrefixBound(Sizes(msgs), |msgs|, KMALLOC_LIMIT);
  }

  // ---- Reading and seeking --------------------------------------------------------------

  /** `Wild` is a copy from outside every live block. */
  datatype Reply = Data(bytes: seq<Byte>) | Fault | Wild

  /** How far a read moves the file position. */
  function Moved(reply: Reply): nat {
    if reply.Data? then |reply.bytes| else 0
  }

  /** How far a write moves the file position. */
  function Accepted(outcome: Outcome, chunk: seq<Byte>): nat {
    if outcome == Done then |chunk| else 0
  }

  /** A file position moved on by `n` bytes. */
  function MoveBy(fPos: int, n: nat): int {
    fPos + n
  }

  /** The readable bytes. */
  function Readable(d: Driver): seq<Byte> {
    Flatten(Window(d.messages))
  }

  /** What a read at stream position `p` returns: the rest of one message, cut to `count`.
      With nothing committed, a read past position 0 leaves the live blocks. */
  function WindowReply(window: seq<seq<Byte>>, p: nat, count: nat, copy: bool): Reply {
    var stream := Flatten(window);
    if window == [] then
      if p == 0 || count == 0 then Data([]) else Wild
    else if p >= |stream| then Data([])
    else
      var left := MessageEnd(window, p) - p;
      var n := if left < count then left else count;
      if n > 0 && !copy then Fault else Data(stream[p..p + n])
  }

  function ReadReply(d: Driver, p: nat, count: nat, copy: bool): Reply {
    WindowReply(Window(d.messages), p, count, copy)
  }

  /** A read at byte `o` of message `c` returns bytes of that message. */
  lemma ReplyWithin(window: seq<seq<Byte>>, p: nat, c: nat, o: nat, count: nat, copy: bool, n: nat)
    requires Holds(Sizes(window), p, c, o)
    requires n == if |window[c]| - o < count then |window[c]| - o else count
    ensures WindowReply(window, p, count, copy)
         == if n > 0 && !copy then Fault else Data(window[c][o..o + n])
  {
    MessageEndIsBoundary(window, p, c, o);
    FlattenSlice(window, p, c, o, n);
  }

  /** The file position set by a seek to byte `offset` of write command `cmd`. */
  function WindowSeek(window: seq<seq<Byte>>, cmd: nat, offset: nat): Option<int> {
    if cmd >= CAPACITY then None else
    Some(ToInt32(Prefix(Sizes(window), if cmd < |window| then cmd else |window|) + offset))
  }

  function SeekPosition(d: Driver, cmd: nat, offset: nat): Option<int> {
    WindowSeek(Window(d.messages), cmd, offset)
  }
}
