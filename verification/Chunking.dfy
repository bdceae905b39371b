/** How the cutting of the input into writes shows, or does not show, in the log. */
module Chunking {
  import opened ByteStream
  import opened KernelHeap
  import opened DriverLog
  import opened DriverRuns

  /** One write and what became of it. */
  datatype Attempt = Attempt(chunk: seq<Byte>, outcome: Outcome)

  /** The pure framing function. */
  function Frame(d: Driver, attempts: seq<Attempt>): Driver {
    if |attempts| == 0 then d else
    var last := attempts[|attempts| - 1];
    AfterWrite(Frame(d, attempts[..|attempts| - 1]), last.chunk, last.outcome)
  }

  /** The writes of a run, whoever made them, each with its outcome. */
  function Attempts(w: World, ops: seq<Op>): seq<Attempt>
    decreases |ops|
  {
    if |ops| == 0 then [] else
    var rest := Attempts(Step(w, ops[0]), ops[1..]);
    if ops[0].WriteOp? then [Attempt(ops[0].chunk, WriteOutcome(w.d, ops[0].chunk, ops[0].env))] + rest else rest
  }

  lemma {:induction false} FrameAppend(d: Driver, a: seq<Attempt>, b: seq<Attempt>)
    ensures Frame(d, a + b) == Frame(Frame(d, a), b)
    decreases |b|
  {
    if |b| == 0 {
      assert a + b == a;
    } else {
      var n := |b| - 1;
      assert (a + b)[..|a + b| - 1] == a + b[..n];
      FrameAppend(d, a, b[..n]);
    }
  }

  /** The log of any run is the framing of its writes: reads and seeks leave no trace. */
  lemma {:induction false} RunIsFraming(w: World, ops: seq<Op>)
    ensures Run(w, ops).d == Frame(w.d, Attempts(w, ops))
    decreases |ops|
  {
    if |ops| > 0 {
      RunIsFraming(Step(w, ops[0]), ops[1..]);
      if ops[0].WriteOp? {
        var first := Attempt(ops[0].chunk, WriteOutcome(w.d, ops[0].chunk, ops[0].env));
        FrameAppend(w.d, [first], Attempts(Step(w, ops[0]), ops[1..]));
        assert [first][..0] == [];
      }
    }
  }

  // ---- Lines ----------------------------------------------------------------------------

  /** A newline at most at the very end. */
  predicate OneLine(s: seq<Byte>) {
    forall i :: 0 <= i < |s| - 1 ==> s[i] != NEWLINE
  }

  /** The newline-terminated lines of a text and the unterminated rest. */
  predicate IsSplit(text: seq<Byte>, lines: seq<seq<Byte>>, rest: seq<Byte>) {
    && Flatten(lines) + rest == text
    && (forall i :: 0 <= i < |lines| ==> EndsLine(lines[i]) && OneLine(lines[i]))
    && NEWLINE !in rest
  }

  /** Two lines that start the same text are the same line. */
  lemma FirstLine(text: seq<Byte>, x: seq<Byte>, y: seq<Byte>)
    requires x <= text && y <= text
    requires EndsLine(x) && OneLine(x) && EndsLine(y) && OneLine(y)
    ensures x == y
  {
  }

  /** A text has one split only. */
  lemma {:induction false} SplitUnique(text: seq<Byte>, xs: seq<seq<Byte>>, r: seq<Byte>,
                                       ys: seq<seq<Byte>>, q: seq<Byte>)
    requires IsSplit(text, xs, r) && IsSplit(text, ys, q)
    ensures xs == ys && r == q
    decreases |xs| + |ys|
  {
    if |xs| == 0 || |ys| == 0 {
      NoLines(text, xs, r);
      NoLines(text, ys, q);
    } else {
      var x, y := xs[0], ys[0];
      assert xs == [x] + xs[1..] && ys == [y] + ys[1..];
      FlattenCons(x, xs[1..]);
      FlattenCons(y, ys[1..]);
      assert text == x + (Flatten(xs[1..]) + r) == y + (Flatten(ys[1..]) + q);
      FirstLine(text, x, y);
      assert text[|x|..] == Flatten(xs[1..]) + r == Flatten(ys[1..]) + q;
      SplitUnique(text[|x|..], xs[1..], r, ys[1..], q);
    }
  }

  lemma NoLines(text: seq<Byte>, lines: seq<seq<Byte>>, rest: seq<Byte>)
    requires IsSplit(text, lines, rest)
    ensures NEWLINE in text <==> lines != []
    ensures lines == [] ==> rest == text
  {
  }

  // ---- Failure-free writing -------------------------------------------------------------

  function AllDone(chunks: seq<seq<Byte>>): (a: seq<Attempt>)
    ensures |a| == |chunks|
    ensures forall i :: 0 <= i < |chunks| ==> a[i] == Attempt(chunks[i], Done)
  {
    seq(|chunks|, i requires 0 <= i < |chunks| => Attempt(chunks[i], Done))
  }

  lemma WriteKeepsBytes(d: Driver, chunk: seq<Byte>)
    ensures var d' := AfterWrite(d, chunk, Done);
            Flatten(d'.messages) + d'.pending == Flatten(d.messages) + d.pending + chunk
  {
  }

  /** Nothing is lost or reordered. */
  lemma {:induction false} FrameKeepsBytes(chunks: seq<seq<Byte>>)
    ensures var d := Frame(FRESH, AllDone(chunks));
            Flatten(d.messages) + d.pending == Flatten(chunks)
    decreases |chunks|
  {
    if |chunks| > 0 {
      var n := |chunks| - 1;
      var before := Frame(FRESH, AllDone(chunks[..n]));
      assert AllDone(chunks)[..n] == AllDone(chunks[..n]);
      FrameKeepsBytes(chunks[..n]);
      assert chunks == chunks[..n] + [chunks[n]];
      FlattenSnoc(chunks[..n], chunks[n]);
      WriteKeepsBytes(before, chunks[n]);
    }
  }

  predicate Clean(d: Driver) {
    && NEWLINE !in d.pending
    && forall i :: 0 <= i < |d.messages| ==> EndsLine(d.messages[i]) && OneLine(d.messages[i])
  }

  /** The committed messages are single lines exactly when every write has its newline, if any,
      at its end. */
  lemma {:induction false} CleanIffOneLineChunks(chunks: seq<seq<Byte>>)
    ensures Clean(Frame(FRESH, AllDone(chunks))) <==> forall i :: 0 <= i < |chunks| ==> OneLine(chunks[i])
    ensures !EndsLine(Frame(FRESH, AllDone(chunks)).pending)
    decreases |chunks|
  {
    if |chunks| > 0 {
      var n := |chunks| - 1;
      assert AllDone(chunks)[..n] == AllDone(chunks[..n]);
      CleanIffOneLineChunks(chunks[..n]);
      CleanStep(Frame(FRESH, AllDone(chunks[..n])), chunks[n]);
    }
  }

  lemma CleanStep(d: Driver, chunk: seq<Byte>)
    requires !EndsLine(d.pending)
    ensures Clean(AfterWrite(d, chunk, Done)) <==> Clean(d) && OneLine(chunk)
    ensures !EndsLine(AfterWrite(d, chunk, Done).pending)
  {
    var text, d' := d.pending + chunk, AfterWrite(d, chunk, Done);
    assert forall i :: 0 <= i < |d.pending| ==> text[i] == d.pending[i];
    assert forall i :: 0 <= i < |chunk| ==> text[|d.pending| + i] == chunk[i];
    assert forall i :: 0 <= i < |d.messages| ==> d'.messages[i] == d.messages[i];
    if EndsLine(text) {
      assert d'.messages[|d.messages|] == text;
    }
  }

  /** For failure-free writes, the log is the line split of the input if and only if no write has
      a newline before its last byte. */
  lemma LogIsLinesIff(chunks: seq<seq<Byte>>)
    ensures var d := Frame(FRESH, AllDone(chunks));
            IsSplit(Flatten(chunks), d.messages, d.pending)
            <==> forall i :: 0 <= i < |chunks| ==> OneLine(chunks[i])
  {
    FrameKeepsBytes(chunks);
    CleanIffOneLineChunks(chunks);
  }

  /** Two such ways of cutting up the same bytes leave the same messages and pending bytes. */
  lemma ChunkingIndependence(a: seq<seq<Byte>>, b: seq<seq<Byte>>)
    requires Flatten(a) == Flatten(b)
    requires forall i :: 0 <= i < |a| ==> OneLine(a[i])
    requires forall i :: 0 <= i < |b| ==> OneLine(b[i])
    ensures Frame(FRESH, AllDone(a)).messages == Frame(FRESH, AllDone(b)).messages
    ensures Frame(FRESH, AllDone(a)).pending == Frame(FRESH, AllDone(b)).pending
  {
    LogIsLinesIff(a);
    LogIsLinesIff(b);
    var x, y := Frame(FRESH, AllDone(a)), Frame(FRESH, AllDone(b));
    SplitUnique(Flatten(a), x.messages, x.pending, y.messages, y.pending);
  }

  // ---- Failures -------------------------------------------------------------------------

  /** What is already committed plays no part in framing what follows. */
  lemma {:induction false} FrameShift(messages: seq<seq<Byte>>, attempts: seq<Attempt>)
    ensures var d := Frame(FRESH, attempts);
            Frame(Driver(messages, [], false), attempts) == Driver(messages + d.messages, d.pending, d.open)
    decreases |attempts|
  {
    if |attempts| > 0 {
      var before := attempts[..|attempts| - 1];
      FrameShift(messages, before);
      ShiftWrite(messages, Frame(FRESH, before), attempts[|attempts| - 1]);
    } else {
      assert messages + [] == messages;
    }
  }

  lemma ShiftWrite(messages: seq<seq<Byte>>, d: Driver, a: Attempt)
    ensures var d' := AfterWrite(d, a.chunk, a.outcome);
            var shifted := Driver(messages + d.messages, d.pending, d.open);
            AfterWrite(shifted, a.chunk, a.outcome) == Driver(messages + d'.messages, d'.pending, d'.open)
  {
    var text := d.pending + a.chunk;
    assert messages + (d.messages + [text]) == (messages + d.messages) + [text];
  }

  /** A failing write costs the message being collected and nothing else: the messages before it stay,
      and what follows it is framed as on a fresh device. */
  lemma FailureForgets(before: seq<Attempt>, failed: Attempt, later: seq<Attempt>)
    requires failed.outcome != Done
    ensures var d, a, b := Frame(FRESH, before + [failed] + later), Frame(FRESH, before), Frame(FRESH, later);
            d == Driver(a.messages + b.messages, b.pending, b.open)
  {
    FrameAppend(FRESH, before + [failed], later);
    assert (before + [failed])[..|before|] == before;
    FrameShift(Frame(FRESH, before).messages, later);
  }

  // ---- Runs -----------------------------------------------------------------------------

  /** The chunks a run writes, whoever writes them. */
  function Chunks(ops: seq<Op>): seq<seq<Byte>> {
    if |ops| == 0 then [] else (if ops[0].WriteOp? then [ops[0].chunk] else []) + Chunks(ops[1..])
  }

  /** No write of the run was answered with an error. */
  predicate WritesSucceed(w: World, ops: seq<Op>) {
    Wrote(NoMemory) !in Answers(w, ops) && Wrote(BadCopy) !in Answers(w, ops)
  }

  lemma AllDoneCons(chunk: seq<Byte>, chunks: seq<seq<Byte>>)
    ensures AllDone([chunk] + chunks) == [Attempt(chunk, Done)] + AllDone(chunks)
  {
  }

  lemma {:induction false} AttemptsDone(w: World, ops: seq<Op>)
    requires WritesSucceed(w, ops)
    ensures Attempts(w, ops) == AllDone(Chunks(ops))
    decreases |ops|
  {
    if |ops| > 0 {
      var later := Answers(Step(w, ops[0]), ops[1..]);
      assert AnswerTo(w, ops[0]) in Answers(w, ops);
      assert forall a :: a in later ==> a in Answers(w, ops);
      AttemptsDone(Step(w, ops[0]), ops[1..]);
      if ops[0].WriteOp? {
        AllDoneCons(ops[0].chunk, Chunks(ops[1..]));
      }
    }
  }

  predicate Grants(env: WriteEnv) {
    env.scratch && env.grow && env.copy && env.entry
  }

  /** In any run from a fresh device, a write to which nothing is refused succeeds if and only if the
      text collected with it stays within the allocator's limit. */
  lemma GrantedWriteIff(ops: seq<Op>, i: nat)
    requires i < |ops| && ops[i].WriteOp? && Grants(ops[i].env)
    ensures |Answers(World(FRESH, map[]), ops)| == |ops|
    ensures Answers(World(FRESH, map[]), ops)[i] == Wrote(Done)
            <==> |Log(ops[..i]).pending| + |ops[i].chunk| <= KMALLOC_LIMIT
  {
    AnswersAt(World(FRESH, map[]), ops, i);
    ReachableWellFormed(ops[..i]);
    WriteOutcomeIff(Log(ops[..i]), ops[i].chunk, ops[i].env);
  }

  /** So a run to which nothing is refused and that writes no more than the limit has no failing write. */
  lemma {:induction false} GrantedRunSucceeds(w: World, ops: seq<Op>)
    requires WellFormed(w.d) && |w.d.pending| + |Flatten(Chunks(ops))| <= KMALLOC_LIMIT
    requires forall i :: 0 <= i < |ops| && ops[i].WriteOp? ==> Grants(ops[i].env)
    ensures WritesSucceed(w, ops)
    decreases |ops|
  {
    if |ops| > 0 {
      if ops[0].WriteOp? {
        FlattenCons(ops[0].chunk, Chunks(ops[1..]));
        WriteOutcomeIff(w.d, ops[0].chunk, ops[0].env);
        WritePreserves(w.d, ops[0].chunk, ops[0].env);
      } else {
        assert Chunks(ops) == Chunks(ops[1..]);
      }
      GrantedRunSucceeds(Step(w, ops[0]), ops[1..]);
    }
  }

  /** The state a run leaves on a fresh device. */
  function Log(ops: seq<Op>): Driver {
    Run(World(FRESH, map[]), ops).d
  }

  /** In any run whose writes succeed, with any reads and seeks and any number of files, the log is
      the line split of the bytes written if and only if no write has a newline before its last byte. */
  lemma RunIsLinesIff(ops: seq<Op>)
    requires WritesSucceed(World(FRESH, map[]), ops)
    ensures IsSplit(Flatten(Chunks(ops)), Log(ops).messages, Log(ops).pending)
            <==> forall i :: 0 <= i < |Chunks(ops)| ==> OneLine(Chunks(ops)[i])
  {
    AttemptsDone(World(FRESH, map[]), ops);
    RunIsFraming(World(FRESH, map[]), ops);
    LogIsLinesIff(Chunks(ops));
  }

  /** Two such runs that write the same bytes leave the same log and the same bytes to read. */
  lemma RunsAgree(ops: seq<Op>, ops': seq<Op>)
    requires WritesSucceed(World(FRESH, map[]), ops) && WritesSucceed(World(FRESH, map[]), ops')
    requires Flatten(Chunks(ops)) == Flatten(Chunks(ops'))
    requires forall i :: 0 <= i < |Chunks(ops)| ==> OneLine(Chunks(ops)[i])
    requires forall i :: 0 <= i < |Chunks(ops')| ==> OneLine(Chunks(ops')[i])
    ensures Log(ops).messages == Log(ops').messages && Log(ops).pending == Log(ops').pending
    ensures Readable(Log(ops)) == Readable(Log(ops'))
  {
    RunIsLinesIff(ops);
    RunIsLinesIff(ops');
    SplitUnique(Flatten(Chunks(ops)), Log(ops).messages, Log(ops).pending, Log(ops').messages, Log(ops').pending);
  }

  lemma ShortWrite(w: World, fd: nat, chunk: seq<Byte>, env: WriteEnv)
    requires env.scratch && env.copy && env.entry
    requires |w.d.pending| + |chunk| <= STARTING_SIZE
    ensures Step(w, WriteOp(fd, chunk, env)).d == AfterWrite(w.d, chunk, Done)
  {
  }

  lemma ShortRuns(w: World, a: Op, b: Op)
    ensures Run(w, [a]) == Step(w, a)
    ensures Run(w, [a, b]) == Step(Step(w, a), b)
  {
    assert [a, b][1..] == [b];
    assert Run(Step(w, a), [b]) == Step(Step(w, a), b);
  }

  /** One write of `a`, newline, `b` holds the finished line back; cut behind the newline the same
      bytes do not. */
  lemma InnerNewline(env: WriteEnv)
    requires env.scratch && env.copy && env.entry
    ensures Log([WriteOp(0, [97, 10, 98], env)]) == Driver([], [97, 10, 98], true)
    ensures Log([WriteOp(0, [97, 10], env), WriteOp(0, [98], env)]) == Driver([[97, 10]], [98], true)
  {
    var w, whole := World(FRESH, map[]), WriteOp(0, [97, 10, 98], env);
    var line, rest := WriteOp(0, [97, 10], env), WriteOp(0, [98], env);
    ShortRuns(w, whole, whole);
    ShortRuns(w, line, rest);
    ShortWrite(w, 0, whole.chunk, env);
    ShortWrite(w, 0, line.chunk, env);
    ShortWrite(Step(w, line), 0, rest.chunk, env);
    assert FRESH.pending + whole.chunk == whole.chunk;
    assert FRESH.pending + line.chunk == line.chunk;
    assert AfterWrite(FRESH, whole.chunk, Done) == Driver([], whole.chunk, true);
    assert AfterWrite(FRESH, line.chunk, Done) == Driver([line.chunk], [], false);
    assert AfterWrite(Driver([line.chunk], [], false), rest.chunk, Done) == Driver([line.chunk], rest.chunk, true);
  }
}
