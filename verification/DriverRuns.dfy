/** Whole runs of the device: any interleaving of writes, reads and seeks on any open files. */
module DriverRuns {
  import opened Options
  import opened ByteStream
  import opened CInt
  import opened CircularBuffer
  import opened DriverLog

  const TWO63: int := 0x8000_0000_0000_0000

  datatype Op =
    | WriteOp(fd: nat, chunk: seq<Byte>, env: WriteEnv)
    | ReadOp(fd: nat, count: nat, copy: bool)
    | SeekOp(fd: nat, cmd: nat, offset: nat)

  datatype Answer = Wrote(outcome: Outcome) | Got(reply: Reply) | Sought(position: Option<int>)

  /** The device and the position of every open file (0 when just opened). */
  datatype World = World(d: Driver, pos: map<nat, int>)

  function Pos(w: World, fd: nat): int {
    if fd in w.pos then w.pos[fd] else 0
  }

  function AnswerTo(w: World, op: Op): Answer {
    match op
    case WriteOp(_, chunk, env) => Wrote(WriteOutcome(w.d, chunk, env))
    case ReadOp(fd, count, copy) => Got(ReadReply(w.d, ToSizeT(Pos(w, fd)), count, copy))
    case SeekOp(_, cmd, offset) => Sought(SeekPosition(w.d, cmd, offset))
  }

  /** The file `fd` moved on by `n` bytes. */
  function Advance(pos: map<nat, int>, fd: nat, n: nat): map<nat, int> {
    pos[fd := MoveBy(if fd in pos then pos[fd] else 0, n)]
  }

  function Step(w: World, op: Op): World {
    match op
    case WriteOp(fd, chunk, env) =>
      var outcome := WriteOutcome(w.d, chunk, env);
      World(AfterWrite(w.d, chunk, outcome), Advance(w.pos, fd, Accepted(outcome, chunk)))
    case ReadOp(fd, count, copy) =>
      var reply := ReadReply(w.d, ToSizeT(Pos(w, fd)), count, copy);
      World(w.d, Advance(w.pos, fd, Moved(reply)))
    case SeekOp(fd, cmd, offset) =>
      var position := SeekPosition(w.d, cmd, offset);
      World(w.d, if position.None? then w.pos else w.pos[fd := position.value])
  }

  function Run(w: World, ops: seq<Op>): World
    decreases |ops|
  {
    if |ops| == 0 then w else Run(Step(w, ops[0]), ops[1..])
  }

  function Answers(w: World, ops: seq<Op>): seq<Answer>
    decreases |ops|
  {
    if |ops| == 0 then [] else [AnswerTo(w, ops[0])] + Answers(Step(w, ops[0]), ops[1..])
  }

  lemma {:induction false} RunWellFormed(w: World, ops: seq<Op>)
    requires WellFormed(w.d)
    ensures WellFormed(Run(w, ops).d)
    decreases |ops|
  {
    if |ops| > 0 {
      if ops[0].WriteOp? { WritePreserves(w.d, ops[0].chunk, ops[0].env); }
      RunWellFormed(Step(w, ops[0]), ops[1..]);
    }
  }

  // ---- The log behind the window --------------------------------------------------------

  /** All bytes ever committed. */
  function History(d: Driver): seq<Byte> {
    Flatten(d.messages)
  }

  /** Bytes that have left the window. */
  function Evicted(d: Driver): nat {
    |Flatten(d.messages[..|d.messages| - |Window(d.messages)|])|
  }

  lemma HistoryIsEvictedPlusReadable(d: Driver)
    ensures |History(d)| == Evicted(d) + |Readable(d)|
    ensures History(d)[Evicted(d)..] == Readable(d)
  {
    var k := |d.messages| - |Window(d.messages)|;
    assert d.messages == d.messages[..k] + Window(d.messages);
    FlattenAppend(d.messages[..k], Window(d.messages));
  }

  lemma LogGrows(a: seq<seq<Byte>>, b: seq<seq<Byte>>)
    requires a <= b
    ensures Flatten(a) <= Flatten(b)
    ensures |Flatten(a[..|a| - |Window(a)|])| <= |Flatten(b[..|b| - |Window(b)|])|
  {
    assert b == a + b[|a|..];
    FlattenAppend(a, b[|a|..]);
    StartGrows(a, b, |a| - |Window(a)|, |b| - |Window(b)|);
  }

  lemma StartGrows<T>(a: seq<seq<T>>, b: seq<seq<T>>, j: nat, k: nat)
    requires a <= b && j <= |a| && j <= k <= |b|
    ensures |Flatten(a[..j])| <= |Flatten(b[..k])|
  {
    assert b[..k] == a[..j] + b[j..k];
    FlattenAppend(a[..j], b[j..k]);
  }

  /** One operation only ever appends to the history and only ever evicts. */
  lemma StepAppends(w: World, op: Op)
    ensures w.d.messages <= Step(w, op).d.messages
    ensures History(w.d) <= History(Step(w, op).d)
    ensures Evicted(w.d) <= Evicted(Step(w, op).d)
  {
    LogGrows(w.d.messages, Step(w, op).d.messages);
  }

  lemma {:induction false} RunAppends(w: World, ops: seq<Op>)
    ensures w.d.messages <= Run(w, ops).d.messages
    ensures History(w.d) <= History(Run(w, ops).d)
    ensures Evicted(w.d) <= Evicted(Run(w, ops).d)
    decreases |ops|
  {
    if |ops| > 0 {
      StepAppends(w, ops[0]);
      RunAppends(Step(w, ops[0]), ops[1..]);
    }
  }

  /** `data` stands in the history from position `start` on. */
  predicate FoundAt(data: seq<Byte>, history: seq<Byte>, start: nat) {
    start + |data| <= |history| && forall i :: 0 <= i < |data| ==> data[i] == history[start + i]
  }

  /** A read at position `p` returns the bytes of the history from `Evicted + p` on. */
  lemma ReadIsHistory(d: Driver, p: nat, count: nat, copy: bool)
    requires ReadReply(d, p, count, copy).Data?
    ensures var data := ReadReply(d, p, count, copy).bytes;
            data != [] ==> FoundAt(data, History(d), Evicted(d) + p)
  {
    HistoryIsEvictedPlusReadable(d);
    var data := ReadReply(d, p, count, copy).bytes;
    if data != [] {
      assert data == Readable(d)[p..p + |data|];
    }
  }

  // ---- A sequential reader --------------------------------------------------------------

  predicate NeverSeeks(ops: seq<Op>, fd: nat) {
    forall i :: 0 <= i < |ops| ==> !(ops[i].SeekOp? && ops[i].fd == fd)
  }

  /** Bytes one operation writes through `fd`. */
  function WrittenBy(w: World, op: Op, fd: nat): nat {
    if op.WriteOp? && op.fd == fd && AnswerTo(w, op) == Wrote(Done) then |op.chunk| else 0
  }

  /** Bytes one operation reads through `fd`. */
  function ReadBy(w: World, op: Op, fd: nat): nat {
    if op.ReadOp? && op.fd == fd && AnswerTo(w, op).reply.Data? then |AnswerTo(w, op).reply.bytes| else 0
  }

  function Written(w: World, ops: seq<Op>, fd: nat): nat
    decreases |ops|
  {
    if |ops| == 0 then 0 else WrittenBy(w, ops[0], fd) + Written(Step(w, ops[0]), ops[1..], fd)
  }

  function BytesRead(w: World, ops: seq<Op>, fd: nat): nat
    decreases |ops|
  {
    if |ops| == 0 then 0 else ReadBy(w, ops[0], fd) + BytesRead(Step(w, ops[0]), ops[1..], fd)
  }

  /** Where one operation leaves a file: its own writes and reads move it on by the bytes of the chunk
      accepted or returned, its own seek puts it where the seek answers, and nothing else moves it. */
  lemma PositionStep(w: World, op: Op, fd: nat)
    ensures op.fd != fd ==> Pos(Step(w, op), fd) == Pos(w, fd)
    ensures op.fd == fd && AnswerTo(w, op) == Wrote(Done) ==> Pos(Step(w, op), fd) == Pos(w, fd) + |op.chunk|
    ensures op.fd == fd && AnswerTo(w, op).Got? && AnswerTo(w, op).reply.Data? ==>
              Pos(Step(w, op), fd) == Pos(w, fd) + |AnswerTo(w, op).reply.bytes|
    ensures op.fd == fd && AnswerTo(w, op).Sought? && AnswerTo(w, op).position.Some? ==>
              Pos(Step(w, op), fd) == AnswerTo(w, op).position.value
    ensures AnswerTo(w, op) in {Wrote(NoMemory), Wrote(BadCopy), Got(Fault), Got(Wild), Sought(None)} ==>
              Pos(Step(w, op), fd) == Pos(w, fd)
  {
  }

  /** A file that never seeks stands exactly where its own reads and writes have taken it. */
  lemma {:induction false} PositionLaw(w: World, ops: seq<Op>, fd: nat)
    requires NeverSeeks(ops, fd)
    ensures Pos(Run(w, ops), fd) == Pos(w, fd) + Written(w, ops, fd) + BytesRead(w, ops, fd)
    decreases |ops|
  {
    if |ops| > 0 {
      PositionLaw(Step(w, ops[0]), ops[1..], fd);
      assert Pos(Step(w, ops[0]), fd) == Pos(w, fd) + WrittenBy(w, ops[0], fd) + ReadBy(w, ops[0], fd);
    }
  }

  /** And one that has sought, from there on. */
  lemma PositionAfterSeek(w: World, fd: nat, c: nat, o: nat, ops: seq<Op>)
    requires NeverSeeks(ops, fd) && SeekPosition(w.d, c, o).Some?
    ensures var w' := Step(w, SeekOp(fd, c, o));
            Pos(Run(w', ops), fd) == SeekPosition(w.d, c, o).value + Written(w', ops, fd) + BytesRead(w', ops, fd)
  {
    PositionStep(w, SeekOp(fd, c, o), fd);
    PositionLaw(Step(w, SeekOp(fd, c, o)), ops, fd);
  }

  /** Where in the history a file stands. */
  function Cursor(w: World, fd: nat): int {
    Evicted(w.d) + Pos(w, fd)
  }

  /** A read of `fd` that returns bytes. */
  predicate Delivers(w: World, op: Op, fd: nat) {
    op.ReadOp? && op.fd == fd && 0 <= Pos(w, fd) < TWO63 && ReadBy(w, op, fd) > 0
  }

  /** Over every run, the bytes a read returns stand in the history at the file's cursor, and stay
      there whatever happens afterwards. */
  lemma DeliveryIsHistory(w: World, op: Op, fd: nat, afterwards: seq<Op>)
    requires Delivers(w, op, fd)
    ensures FoundAt(AnswerTo(w, op).reply.bytes, History(Run(Step(w, op), afterwards).d), Cursor(w, fd))
  {
    var reply := ReadReply(w.d, Pos(w, fd), op.count, op.copy);
    assert AnswerTo(w, op) == Got(reply);
    ReadIsHistory(w.d, Pos(w, fd), op.count, op.copy);
    RunAppends(Step(w, op), afterwards);
    FoundLater(reply.bytes, History(w.d), History(Run(Step(w, op), afterwards).d), Cursor(w, fd));
  }

  lemma FoundLater(data: seq<Byte>, h: seq<Byte>, h': seq<Byte>, start: nat)
    requires FoundAt(data, h, start) && h <= h'
    ensures FoundAt(data, h', start)
  {
  }

  /** Take any two reads of a file in any run, with no seek of that file in between. The second starts
      where the first ended, plus the bytes evicted in between, plus the bytes the file wrote and
      read in between. So no byte is delivered twice, and what is skipped is exactly that. */
  lemma ReadsAdvance(w: World, op: Op, between: seq<Op>, fd: nat)
    requires Delivers(w, op, fd) && NeverSeeks(between, fd)
    ensures var w' := Step(w, op);
            var later := Run(w', between);
            && Evicted(w.d) <= Evicted(later.d)
            && Cursor(later, fd) == Cursor(w, fd) + |AnswerTo(w, op).reply.bytes|
                 + (Evicted(later.d) - Evicted(w.d)) + Written(w', between, fd) + BytesRead(w', between, fd)
  {
    PositionLaw(Step(w, op), between, fd);
    RunAppends(Step(w, op), between);
  }

  // ---- Reads outside every block --------------------------------------------------------

  /** Every answer of a run is given in the state its earlier operations have left. */
  lemma {:induction false} AnswersAt(w: World, ops: seq<Op>, i: nat)
    requires i < |ops|
    ensures |Answers(w, ops)| == |ops|
    ensures Answers(w, ops)[i] == AnswerTo(Run(w, ops[..i]), ops[i])
    decreases |ops|
  {
    if i > 0 {
      assert ops[..i][1..] == ops[1..][..i - 1];
      AnswersAt(Step(w, ops[0]), ops[1..], i - 1);
    } else if |ops| > 1 {
      AnswersAt(Step(w, ops[0]), ops[1..], 0);
    }
  }

  /** In any run, a read leaves the live blocks exactly when nothing has been committed before it,
      its file stands away from position 0 and it asks for at least one byte. */
  lemma WildIff(w: World, ops: seq<Op>, i: nat)
    requires i < |ops|
    ensures |Answers(w, ops)| == |ops|
    ensures Answers(w, ops)[i] == Got(Wild)
            <==> var before := Run(w, ops[..i]);
                 && ops[i].ReadOp? && ops[i].count > 0
                 && before.d.messages == [] && ToSizeT(Pos(before, ops[i].fd)) != 0
  {
    AnswersAt(w, ops, i);
  }

  /** For a file that never seeks, from a fresh device on, the same in terms of the calls made: nothing
      has been committed and the bytes this file has written are not a multiple of 2^64. */
  lemma WildFromStart(ops: seq<Op>, fd: nat, count: nat, copy: bool)
    requires NeverSeeks(ops, fd)
    ensures var w := World(FRESH, map[]);
            AnswerTo(Run(w, ops), ReadOp(fd, count, copy)) == Got(Wild)
            <==> Run(w, ops).d.messages == [] && Written(w, ops, fd) % TWO64 != 0 && count > 0
  {
    var w := World(FRESH, map[]);
    PositionLaw(w, ops, fd);
    if Run(w, ops).d.messages == [] {
      NothingToRead(w, ops, fd);
    }
  }

  /** While nothing is committed no read returns a byte. */
  lemma {:induction false} NothingToRead(w: World, ops: seq<Op>, fd: nat)
    requires Run(w, ops).d.messages == []
    ensures BytesRead(w, ops, fd) == 0
    decreases |ops|
  {
    RunAppends(w, ops);
    if |ops| > 0 {
      NothingToRead(Step(w, ops[0]), ops[1..], fd);
    }
  }

  /** Once a message has been committed, no later read leaves the live blocks. */
  lemma NeverWildAfterCommit(w: World, ops: seq<Op>, op: Op)
    requires w.d.messages != []
    ensures AnswerTo(Run(w, ops), op) != Got(Wild)
  {
    RunAppends(w, ops);
  }

  /** Before that, a partial write followed by a read on the same file does. */
  lemma WildBeforeCommit()
    ensures var env := WriteEnv(true, true, false, true, true);
            var w := Run(World(FRESH, map[]), [WriteOp(0, [65], env)]);
            AnswerTo(w, ReadOp(0, 1, true)) == Got(Wild)
  {
  }

  /** Short of that, a read of an empty device returns nothing. */
  lemma ReadBeforeCommit(w: World, op: Op)
    requires op.ReadOp? && w.d.messages == []
    ensures AnswerTo(w, op) == Got(if ToSizeT(Pos(w, op.fd)) == 0 || op.count == 0 then Data([]) else Wild)
  {
  }

  /** With a message committed, every read at or past the end returns nothing, wherever the position
      came from: a negative one is past the end as well. */
  lemma ReadPastEnd(w: World, op: Op)
    requires op.ReadOp? && w.d.messages != [] && |Readable(w.d)| <= ToSizeT(Pos(w, op.fd))
    ensures AnswerTo(w, op) == Got(Data([])) && Pos(Step(w, op), op.fd) == Pos(w, op.fd)
  {
  }

  // ---- Draining -------------------------------------------------------------------------

  /** Reads of `fd` only, each of at least one byte; user copies may fail. */
  predicate Reads(ops: seq<Op>, fd: nat) {
    forall i :: 0 <= i < |ops| ==> ops[i].ReadOp? && ops[i].fd == fd && ops[i].count > 0
  }

  /** How many of the reads have a user copy that works. */
  function Copies(ops: seq<Op>): nat {
    if |ops| == 0 then 0 else
    (if ops[0].ReadOp? && ops[0].copy then 1 else 0) + Copies(ops[1..])
  }

  function BytesOf(answer: Answer): seq<Byte> {
    if answer.Got? && answer.reply.Data? then answer.reply.bytes else []
  }

  /** All bytes the reader has been given. */
  function Received(answers: seq<Answer>): seq<Byte> {
    if |answers| == 0 then [] else BytesOf(answers[0]) + Received(answers[1..])
  }

  /** The bytes a file has still to read. */
  function Rest(w: World, fd: nat): seq<Byte>
    requires 0 <= Pos(w, fd) <= |Readable(w.d)|
  {
    Readable(w.d)[Pos(w, fd)..]
  }

  lemma FirstSlice(window: seq<seq<Byte>>, p: nat, count: nat, copy: bool)
    requires p <= |Flatten(window)| && window != [] && count > 0
    ensures var reply := WindowReply(window, p, count, copy);
            && !reply.Wild? && (copy ==> reply.Data?)
            && p + Moved(reply) <= |Flatten(window)|
            && Flatten(window)[p..] == BytesOf(Got(reply)) + Flatten(window)[p + Moved(reply)..]
            && (reply == Data([]) <==> p == |Flatten(window)|)
  {
    var stream, n := Flatten(window), Moved(WindowReply(window, p, count, copy));
    assert p + n <= |stream| ==> stream[p..] == stream[p..p + n] + stream[p + n..];
  }

  lemma ReadableBound(d: Driver)
    requires WellFormed(d)
    ensures |Readable(d)| < TWO31
  {
    FlattenBounds(Window(d.messages));
  }

  /** One read hands over the next bytes of the rest; a fault leaves everything as it was. */
  lemma ReadStep(w: World, op: Op)
    requires op.ReadOp? && op.count > 0
    requires WellFormed(w.d) && w.d.messages != [] && 0 <= Pos(w, op.fd) <= |Readable(w.d)|
    ensures var answer, w' := AnswerTo(w, op), Step(w, op);
            && answer != Got(Wild) && (op.copy ==> answer.reply.Data?)
            && w'.d == w.d && Pos(w', op.fd) == Pos(w, op.fd) + |BytesOf(answer)|
            && 0 <= Pos(w', op.fd) <= |Readable(w'.d)|
            && Rest(w, op.fd) == BytesOf(answer) + Rest(w', op.fd)
            && (answer == Got(Data([])) <==> Rest(w, op.fd) == [])
  {
    ReadableBound(w.d);
    FirstSlice(Window(w.d.messages), Pos(w, op.fd), op.count, op.copy);
    assert Pos(Step(w, op), op.fd) == Pos(w, op.fd) + Moved(AnswerTo(w, op).reply);
  }

  lemma ReceivedCons(answer: Answer, later: seq<Answer>)
    ensures Received([answer] + later) == BytesOf(answer) + Received(later)
  {
  }

  lemma Joined<T>(first: seq<T>, later: seq<T>, rest: seq<T>, all: seq<T>, middle: seq<T>)
    requires all == first + middle && middle == later + rest
    ensures all == (first + later) + rest
    ensures (later == middle || all == []) ==> first + later == all
  {
  }

  /** In any well-formed log with a message, whatever the sizes of a file's reads and whichever of
      them fault: none leaves the live blocks, together they return exactly the next bytes of the
      rest, in order, the position stands right behind them, an empty answer comes only when all has
      been delivered, and as many working copies as there are bytes deliver it all. */
  lemma {:induction false} DrainDelivers(w: World, ops: seq<Op>, fd: nat)
    requires WellFormed(w.d) && w.d.messages != [] && 0 <= Pos(w, fd) <= |Readable(w.d)|
    requires Reads(ops, fd)
    ensures Run(w, ops).d == w.d
    ensures Pos(Run(w, ops), fd) == Pos(w, fd) + |Received(Answers(w, ops))| <= |Readable(w.d)|
    ensures Rest(w, fd) == Received(Answers(w, ops)) + Rest(Run(w, ops), fd)
    ensures Got(Wild) !in Answers(w, ops)
    ensures Got(Data([])) in Answers(w, ops) ==> Received(Answers(w, ops)) == Rest(w, fd)
    ensures Copies(ops) >= |Rest(w, fd)| ==> Received(Answers(w, ops)) == Rest(w, fd)
    decreases |ops|
  {
    if |ops| > 0 {
      var answer, w' := AnswerTo(w, ops[0]), Step(w, ops[0]);
      ReadStep(w, ops[0]);
      DrainDelivers(w', ops[1..], fd);
      var later, answers := Answers(w', ops[1..]), Answers(w, ops);
      ReceivedCons(answer, later);
      Joined(BytesOf(answer), Received(later), Rest(Run(w, ops), fd), Rest(w, fd), Rest(w', fd));
      assert answers == [answer] + later;
    }
  }

  /** No slice crosses a message boundary. */
  lemma ReadStaysInMessage(window: seq<seq<Byte>>, p: nat, count: nat)
    requires p < |Flatten(window)|
    ensures exists c: nat, o: nat ::
              && Holds(Sizes(window), p, c, o)
              && WindowReply(window, p, count, true).Data?
              && WindowReply(window, p, count, true).bytes <= window[c][o..]
  {
    FlattenTotal(window);
    HoldsExists(Sizes(window), p);
    var c: nat, o: nat :| Holds(Sizes(window), p, c, o);
    var n := if |window[c]| - o < count then |window[c]| - o else count;
    ReplyWithin(window, p, c, o, count, true, n);
    assert window[c][o..o + n] <= window[c][o..];
  }

  // ---- Seeking --------------------------------------------------------------------------

  /** Byte `o` of command `c` is in the window, and `p` is where seeking to it leads. */
  predicate SeeksTo(d: Driver, c: nat, o: nat, p: nat) {
    && c < |Window(d.messages)| && o < |Window(d.messages)[c]|
    && SeekPosition(d, c, o) == Some(p)
  }

  lemma WindowSeekHolds(window: seq<seq<Byte>>, c: nat, o: nat)
    requires |window| <= CAPACITY && c < |window| && o < |window[c]|
    requires |Flatten(window)| < TWO31
    ensures var p := Prefix(Sizes(window), c) + o;
            WindowSeek(window, c, o) == Some(p) && p < |Flatten(window)| && Flatten(window)[p] == window[c][o]
  {
    HoldsByte(window, Prefix(Sizes(window), c) + o, c, o);
  }

  lemma SeekHolds(d: Driver, c: nat, o: nat)
    requires WellFormed(d) && c < |Window(d.messages)| && o < |Window(d.messages)[c]|
    ensures var p := Prefix(Sizes(Window(d.messages)), c) + o;
            && SeeksTo(d, c, o, p) && p < |Readable(d)|
            && Readable(d)[p] == Window(d.messages)[c][o]
  {
    FlattenBounds(Window(d.messages));
    WindowSeekHolds(Window(d.messages), c, o);
  }

  /** A read right after a seek to byte `o` of command `c`, through the same file, returns that byte and
      what follows it in the command, cut to the count. */
  lemma SeekThenRead(w: World, fd: nat, c: nat, o: nat, count: nat, copy: bool)
    requires WellFormed(w.d) && c < |Window(w.d.messages)| && o < |Window(w.d.messages)[c]|
    ensures var message := Window(w.d.messages)[c];
            var n := if |message| - o < count then |message| - o else count;
            var reply := if n > 0 && !copy then Fault else Data(message[o..o + n]);
            AnswerTo(Step(w, SeekOp(fd, c, o)), ReadOp(fd, count, copy)) == Got(reply)
  {
    var p := SeekLands(w, fd, c, o);
    var window := Window(w.d.messages);
    ReplyWithin(window, p, c, o, count, copy, if |window[c]| - o < count then |window[c]| - o else count);
  }

  /** The seek itself. */
  lemma SeekLands(w: World, fd: nat, c: nat, o: nat) returns (p: nat)
    requires WellFormed(w.d) && c < |Window(w.d.messages)| && o < |Window(w.d.messages)[c]|
    ensures var w' := Step(w, SeekOp(fd, c, o));
            w'.d == w.d && Pos(w', fd) == ToSizeT(Pos(w', fd)) == p
    ensures Holds(Sizes(Window(w.d.messages)), p, c, o)
  {
    p := Prefix(Sizes(Window(w.d.messages)), c) + o;
    SeekHolds(w.d, c, o);
    ReadableBound(w.d);
    PositionStep(w, SeekOp(fd, c, o), fd);
  }

  /** The position of any seek, to commands and offsets the window does not have as well: the bytes of
      the commands before it plus the offset, as an `int`; only command numbers from ten on are
      refused. */
  lemma SeekExact(d: Driver, c: nat, o: nat)
    ensures c >= CAPACITY <==> SeekPosition(d, c, o) == None
    ensures c < CAPACITY ==>
              SeekPosition(d, c, o) == Some(ToInt32(|Flatten(FirstCommands(Window(d.messages), c))| + o))
  {
    var window := Window(d.messages);
    FlattenPrefix(window, if c < |window| then c else |window|);
    assert window[..|window|] == window;
  }

  function FirstCommands(window: seq<seq<Byte>>, c: nat): seq<seq<Byte>> {
    if c < |window| then window[..c] else window
  }

  /** Every position below the total is sought by some byte of the window. */
  lemma SeekReaches(d: Driver, p: nat)
    requires WellFormed(d) && p < |Readable(d)|
    ensures exists c: nat, o: nat :: SeeksTo(d, c, o, p)
  {
    var sizes := Sizes(Window(d.messages));
    FlattenTotal(Window(d.messages));
    HoldsExists(sizes, p);
    var c: nat, o: nat :| Holds(sizes, p, c, o);
    SeekHolds(d, c, o);
    assert SeeksTo(d, c, o, p);
  }

  /** The bytes of the window and the positions below the total correspond one to one under the
      seek, and the byte sought is the byte read. */
  lemma SeekIsBijection(d: Driver, p: nat)
    requires WellFormed(d)
    ensures p < |Readable(d)| <==> exists c: nat, o: nat :: SeeksTo(d, c, o, p)
    ensures forall c: nat, o: nat :: SeeksTo(d, c, o, p) ==>
              && Holds(Sizes(Window(d.messages)), p, c, o)
              && p < |Readable(d)| && Readable(d)[p] == Window(d.messages)[c][o]
  {
    forall c: nat, o: nat | SeeksTo(d, c, o, p)
      ensures Holds(Sizes(Window(d.messages)), p, c, o)
      ensures p < |Readable(d)| && Readable(d)[p] == Window(d.messages)[c][o]
    {
      SeekHolds(d, c, o);
    }
    if p < |Readable(d)| {
      SeekReaches(d, p);
    }
  }

  /** Every reachable state is well formed. */
  lemma ReachableWellFormed(ops: seq<Op>)
    ensures WellFormed(Run(World(FRESH, map[]), ops).d)
  {
    RunWellFormed(World(FRESH, map[]), ops);
  }

  /** Different bytes of the window have different positions. */
  lemma SeekIsInjective(d: Driver, p: nat, c: nat, o: nat, c': nat, o': nat)
    requires WellFormed(d)
    requires SeeksTo(d, c, o, p) && SeeksTo(d, c', o', p)
    ensures c == c' && o == o'
  {
    SeekIsBijection(d, p);
    HoldsUnique(Sizes(Window(d.messages)), p, c, o, c', o');
  }
}
