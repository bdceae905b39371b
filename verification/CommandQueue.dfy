/** commandQueue.c under any number of threads: every shared access is a step of its own. */
module CommandQueue {
  import opened Options

  const MAX_QUEUE_SIZE: nat := 10

  // error_t
  const ERROR_NONE: int := 0
  const ERROR_STATE: int := -1
  const ERROR_INPUT: int := -2
  const ERROR_EMPTY_QUEUE: int := -4
  const ERROR_NO_INIT: int := -6
  const ERROR_FULL_QUEUE: int := -7
  const ERROR_NOT_SUPPORTED: int := -8
  const ERROR_GENERAL: int := -9

  // smState_t
  const IDLE: int := 0

  /** C enumerations are integers and may hold any value; `payload` stands for the remaining
      fields. */
  datatype Command = Command(stateNeeded: int, cmdType: int, payload: int)

  /** A slot after `memset`. */
  const ZERO := Command(0, 0, 0)

  // adminCommand, userCommand, perfCommand; idle, userMode, perfMode, error
  predicate ValidCommand(c: Command) {
    0 <= c.cmdType <= 2 && 0 <= c.stateNeeded <= 3
  }

  function Validate(c: Option<Command>): int {
    if c.None? || !ValidCommand(c.value) then ERROR_INPUT else ERROR_NONE
  }

  function NextIndex(i: nat): nat {
    (i + 1) % MAX_QUEUE_SIZE
  }

  /** What a processed command came to. `Default` is the dispatcher's default branch. */
  datatype Outcome = Rejected | Admin | User | Perf | Default

  function Dispatch(c: Command): Outcome {
    if c.cmdType == 1 then User else if c.cmdType == 2 then Perf else if c.cmdType == 0 then Admin else Default
  }

  /** Where a thread stands. A thread past `DeqLoad` carries its command and, as its ticket, the
      number of commands taken before it. */
  datatype Pc =
    | Outside
    // enqueue_command, after validation
    | EnqLock(cmd: Command) | EnqTest(cmd: Command) | EnqStore(cmd: Command)
    | EnqAdvance | EnqFlag | EnqUnlock(ret: int)
    // processNextCommandInQueue
    | DeqLock | DeqTest | DeqLoad | DeqZero(c: Command, ticket: nat) | DeqAdvance(c: Command, ticket: nat)
    | DeqFlag(c: Command, ticket: nat) | DeqUnlock(c: Command, ticket: nat) | DeqUnlockEmpty
    | DeqExec(c: Command, ticket: nat)
    // get_queue_status
    | StatLock | StatTest | StatUnlock(ret: int)

  /** The fields of `CommandQueue_t` that the mutex guards. */
  datatype Ring = Ring(queue: seq<Command>, enq: nat, deq: nat, isEmpty: bool)

  /** The shared structure, the threads, and the history of what has been accepted and taken. */
  datatype State = State(
    ring: Ring, mode: int, owner: Option<nat>, pcs: map<nat, Pc>,
    accepted: seq<Command>, taken: seq<Command>, acks: nat, settled: map<nat, Outcome>)

  /** What an idle thread does next. */
  datatype Call = Enqueue(cmd: Option<Command>) | Process | Status

  /** After `commandQueueInit`. */
  function Init(): State {
    State(Ring(seq(MAX_QUEUE_SIZE, _ => ZERO), 0, 0, true), IDLE, None, map[], [], [], 0, map[])
  }

  function PcOf(s: State, t: nat): Pc {
    if t in s.pcs then s.pcs[t] else Outside
  }

  predicate FullTest(m: Ring) {
    !m.isEmpty && m.enq == m.deq
  }

  predicate InBounds(m: Ring) {
    m.enq < |m.queue| && m.deq < |m.queue|
  }

  /** What the owner of the mutex writes to the shared fields. */
  function Touch(m: Ring, pc: Pc): Ring
    requires InBounds(m)
  {
    match pc
    case EnqStore(cmd) => m.(queue := m.queue[m.enq := cmd])
    case EnqAdvance => m.(enq := NextIndex(m.enq))
    case EnqFlag => m.(isEmpty := false)
    case DeqZero(_, _) => m.(queue := m.queue[m.deq := ZERO])
    case DeqAdvance(_, _) => m.(deq := NextIndex(m.deq))
    case DeqFlag(_, _) => if m.deq == m.enq then m.(isEmpty := true) else m
    case _ => m
  }

  /** Where the owner goes next. */
  function Next(m: Ring, pc: Pc, taken: nat): Pc
    requires InBounds(m) && Critical(pc)
  {
    match pc
    case EnqTest(cmd) => if FullTest(m) then EnqUnlock(ERROR_FULL_QUEUE) else EnqStore(cmd)
    case EnqStore(_) => EnqAdvance
    case EnqAdvance => EnqFlag
    case EnqFlag => EnqUnlock(ERROR_NONE)
    case EnqUnlock(_) => Outside
    case DeqTest => if m.isEmpty then DeqUnlockEmpty else DeqLoad
    case DeqLoad => DeqZero(m.queue[m.deq], taken)
    case DeqZero(c, k) => DeqAdvance(c, k)
    case DeqAdvance(c, k) => DeqFlag(c, k)
    case DeqFlag(c, k) => DeqUnlock(c, k)
    case DeqUnlock(c, k) => DeqExec(c, k)
    case DeqUnlockEmpty => Outside
    case StatTest =>
      StatUnlock(if m.isEmpty then ERROR_EMPTY_QUEUE else if FullTest(m) then ERROR_FULL_QUEUE else ERROR_NONE)
    case StatUnlock(_) => Outside
  }

  /** Between lock and unlock. */
  predicate Critical(pc: Pc) {
    !(pc.Outside? || Waiting(pc) || pc.DeqExec?)
  }

  predicate Unlocking(pc: Pc) {
    pc.EnqUnlock? || pc.DeqUnlock? || pc.DeqUnlockEmpty? || pc.StatUnlock?
  }

  predicate Waiting(pc: Pc) {
    pc.EnqLock? || pc.DeqLock? || pc.StatLock?
  }

  /** One step of thread `t`; a thread waiting for the held mutex does not move. */
  function Step(s: State, t: nat, call: Call): State
    requires InBounds(s.ring)
  {
    var pc := PcOf(s, t);
    if pc.Outside? then Begin(s, t, call)
    else if Waiting(pc) then (if s.owner.Some? then s else Locked(s, t, pc))
    else if pc.DeqExec? then Execute(s, t, pc.c, pc.ticket)
    else Inside(s, t, pc)
  }

  /** Entering one of the three functions; a command that does not validate is turned away. */
  function Begin(s: State, t: nat, call: Call): State {
    match call
    case Enqueue(cmd) => if Validate(cmd) != ERROR_NONE then s else s.(pcs := s.pcs[t := EnqLock(cmd.value)])
    case Process => s.(pcs := s.pcs[t := DeqLock])
    case Status => s.(pcs := s.pcs[t := StatLock])
  }

  function Locked(s: State, t: nat, pc: Pc): State
    requires Waiting(pc)
  {
    s.(owner := Some(t),
       pcs := s.pcs[t := if pc.EnqLock? then EnqTest(pc.cmd) else if pc.DeqLock? then DeqTest else StatTest])
  }

  /** A step of the owner. */
  function Inside(s: State, t: nat, pc: Pc): State
    requires InBounds(s.ring) && Critical(pc)
  {
    var pc' := Next(s.ring, pc, |s.taken|);
    s.(ring := Touch(s.ring, pc),
       owner := if Critical(pc') then s.owner else None,
       pcs := s.pcs[t := pc'],
       accepted := if pc.EnqStore? then s.accepted + [pc.cmd] else s.accepted,
       taken := if pc.DeqLoad? then s.taken + [s.ring.queue[s.ring.deq]] else s.taken,
       acks := if pc.EnqUnlock? && pc.ret == ERROR_NONE then s.acks + 1 else s.acks)
  }

  /** Running a dequeued command, outside the mutex. */
  function Execute(s: State, t: nat, c: Command, k: nat): State {
    s.(pcs := s.pcs[t := Outside],
       settled := s.settled[k :=
         if c.stateNeeded != s.mode && c.stateNeeded != IDLE then Rejected else Dispatch(c)])
  }

  // ---- The abstract queue ---------------------------------------------------------------

  /** Accepted and not yet taken, oldest first. */
  function Fifo(s: State): seq<Command>
    requires |s.taken| <= |s.accepted|
  {
    s.accepted[|s.taken|..]
  }

  /** How far slot `j` lies behind slot `start` in ring order. */
  function Distance(start: nat, j: nat): int {
    if j >= start then j - start else j + MAX_QUEUE_SIZE - start
  }

  /** The ring holds `q` from slot `start` on, and zeroed slots elsewhere. */
  predicate RingHolds(queue: seq<Command>, start: nat, q: seq<Command>) {
    && |queue| == MAX_QUEUE_SIZE && start < MAX_QUEUE_SIZE && |q| <= MAX_QUEUE_SIZE
    && forall j :: 0 <= j < MAX_QUEUE_SIZE ==>
         queue[j] == if Distance(start, j) < |q| then q[Distance(start, j)] else ZERO
  }

  /** Indices and flag at rest. */
  predicate AtRest(m: Ring, q: seq<Command>) {
    && RingHolds(m.queue, m.deq, q)
    && m.enq == (m.deq + |q|) % MAX_QUEUE_SIZE
    && (m.isEmpty <==> q == [])
  }

  /** The shape of the ring, given where the owner of the mutex stands. */
  predicate Shape(m: Ring, pc: Pc, q: seq<Command>) {
    match pc
    case EnqStore(_) => AtRest(m, q) && |q| < MAX_QUEUE_SIZE
    case EnqAdvance =>
      && RingHolds(m.queue, m.deq, q) && |q| > 0
      && m.enq == (m.deq + |q| - 1) % MAX_QUEUE_SIZE
    case EnqFlag =>
      && RingHolds(m.queue, m.deq, q) && |q| > 0
      && m.enq == (m.deq + |q|) % MAX_QUEUE_SIZE
    case DeqLoad => AtRest(m, q) && |q| > 0
    case DeqZero(c, _) =>
      && RingHolds(m.queue, m.deq, [c] + q)
      && m.enq == (m.deq + 1 + |q|) % MAX_QUEUE_SIZE && !m.isEmpty
    case DeqAdvance(_, _) =>
      && m.deq < MAX_QUEUE_SIZE && RingHolds(m.queue, NextIndex(m.deq), q) && |q| < MAX_QUEUE_SIZE
      && m.enq == (m.deq + 1 + |q|) % MAX_QUEUE_SIZE && !m.isEmpty
    case DeqFlag(_, _) =>
      && RingHolds(m.queue, m.deq, q) && |q| < MAX_QUEUE_SIZE
      && m.enq == (m.deq + |q|) % MAX_QUEUE_SIZE && !m.isEmpty
    case _ => AtRest(m, q)
  }

  predicate HasTicket(pc: Pc) {
    pc.DeqZero? || pc.DeqAdvance? || pc.DeqFlag? || pc.DeqUnlock? || pc.DeqExec?
  }

  /** A thread about to return ERROR_NONE from `enqueue_command`. */
  predicate Unacknowledged(pc: Pc) {
    pc.EnqAdvance? || pc.EnqFlag? || (pc.EnqUnlock? && pc.ret == ERROR_NONE)
  }

  function OwnerPc(s: State): Pc {
    if s.owner.Some? then PcOf(s, s.owner.value) else Outside
  }

  /** The invariant of every reachable state. */
  ghost predicate Inv(s: State) {
    && s.mode == IDLE
    && s.taken <= s.accepted
    && (forall i :: 0 <= i < |s.accepted| ==> ValidCommand(s.accepted[i]))
    && Shape(s.ring, OwnerPc(s), Fifo(s))
    && s.acks + (if Unacknowledged(OwnerPc(s)) then 1 else 0) == |s.accepted|
    && Exclusive(s) && Tickets(s)
  }

  /** Mutual exclusion. */
  ghost predicate Exclusive(s: State) {
    forall t: nat :: Critical(PcOf(s, t)) <==> s.owner == Some(t)
  }

  /** What a thread carries. */
  predicate Carries(s: State, pc: Pc) {
    && (pc.EnqLock? || pc.EnqTest? || pc.EnqStore? ==> ValidCommand(pc.cmd))
    && (HasTicket(pc) ==> pc.ticket < |s.taken| && pc.c == s.taken[pc.ticket] && pc.ticket !in s.settled)
  }

  predicate Holding(s: State, t: nat, k: nat) {
    HasTicket(PcOf(s, t)) && PcOf(s, t).ticket == k
  }

  /** Every command taken is settled as its contents demand, or is in the hands of exactly one
      thread. */
  ghost predicate Tickets(s: State) {
    && (forall t: nat :: Carries(s, PcOf(s, t)))
    && (forall t: nat, u: nat, k: nat :: Holding(s, t, k) && Holding(s, u, k) ==> t == u)
    && (forall k: nat :: k in s.settled ==> k < |s.taken| && s.settled[k] == Verdict(s.taken[k]))
    && (forall k: nat :: k < |s.taken| && k !in s.settled ==> exists t: nat :: Holding(s, t, k))
  }

  /** A command runs if and only if it needs no mode other than `idle`. */
  function Verdict(c: Command): Outcome {
    if c.stateNeeded != IDLE then Rejected else Dispatch(c)
  }

  // ---- One step of the owner ------------------------------------------------------------

  /** What the step of a thread standing at `pc` does to the bounded queue. */
  predicate FifoStep(q: seq<Command>, pc: Pc, q': seq<Command>, pc': Pc) {
    match pc
    case EnqStore(cmd) => |q| < MAX_QUEUE_SIZE && q' == q + [cmd]
    case DeqLoad => q != [] && q' == q[1..] && pc'.DeqZero? && pc'.c == q[0]
    case EnqTest(cmd) =>
      q' == q && pc' == if |q| == MAX_QUEUE_SIZE then EnqUnlock(ERROR_FULL_QUEUE) else EnqStore(cmd)
    case DeqTest => q' == q && pc' == if q == [] then DeqUnlockEmpty else DeqLoad
    case StatTest =>
      && q' == q
      && pc' == StatUnlock(if |q| == 0 then ERROR_EMPTY_QUEUE
                           else if |q| == MAX_QUEUE_SIZE then ERROR_FULL_QUEUE else ERROR_NONE)
    case _ => q' == q
  }

  lemma RingPush(queue: seq<Command>, start: nat, q: seq<Command>, c: Command)
    requires RingHolds(queue, start, q) && |q| < MAX_QUEUE_SIZE
    ensures RingHolds(queue[(start + |q|) % MAX_QUEUE_SIZE := c], start, q + [c])
  {
  }

  lemma RingPop(queue: seq<Command>, start: nat, c: Command, q: seq<Command>)
    requires RingHolds(queue, start, [c] + q)
    ensures queue[start] == c
    ensures RingHolds(queue[start := ZERO], NextIndex(start), q)
  {
  }

  /** At rest, the tests read off the length. */
  lemma RestTests(m: Ring, q: seq<Command>)
    requires AtRest(m, q)
    ensures m.isEmpty <==> |q| == 0
    ensures FullTest(m) <==> |q| == MAX_QUEUE_SIZE
  {
  }

  lemma PushAtRest(m: Ring, q: seq<Command>, c: Command)
    requires AtRest(m, q) && |q| < MAX_QUEUE_SIZE
    ensures m.enq < |m.queue|
    ensures AtRest(Ring(m.queue[m.enq := c], NextIndex(m.enq), m.deq, false), q + [c])
  {
  }

  lemma PopAtRest(m: Ring, q: seq<Command>)
    requires AtRest(m, q) && |q| > 0
    ensures m.queue[m.deq] == q[0]
    ensures var deq := NextIndex(m.deq);
            AtRest(Ring(m.queue[m.deq := ZERO], m.enq, deq, deq == m.enq), q[1..])
  {
    assert q == [q[0]] + q[1..];
    RingPop(m.queue, m.deq, q[0], q[1..]);
  }

  lemma ShapeInBounds(m: Ring, pc: Pc, q: seq<Command>)
    requires Shape(m, pc, q)
    ensures InBounds(m) && |q| <= MAX_QUEUE_SIZE
  {
  }

  /** What the owner's step leaves of the bounded queue. */
  function AfterOwner(pc: Pc, q: seq<Command>): seq<Command> {
    if pc.EnqStore? then q + [pc.cmd] else if pc.DeqLoad? && q != [] then q[1..] else q
  }

  lemma StoreStep(m: Ring, pc: Pc, q: seq<Command>, taken: nat)
    requires Shape(m, pc, q) && (pc.EnqStore? || pc.EnqAdvance? || pc.EnqFlag?)
    ensures InBounds(m)
    ensures Shape(Touch(m, pc), Next(m, pc, taken), AfterOwner(pc, q))
    ensures FifoStep(q, pc, AfterOwner(pc, q), Next(m, pc, taken))
  {
    if pc.EnqStore? { RingPush(m.queue, m.deq, q, pc.cmd); }
  }

  lemma LoadStep(m: Ring, pc: Pc, q: seq<Command>, taken: nat)
    requires Shape(m, pc, q) && (pc.DeqLoad? || pc.DeqZero?)
    ensures InBounds(m)
    ensures Shape(Touch(m, pc), Next(m, pc, taken), AfterOwner(pc, q))
    ensures FifoStep(q, pc, AfterOwner(pc, q), Next(m, pc, taken))
    ensures pc.DeqLoad? ==> q != [] && m.queue[m.deq] == q[0]
  {
    if pc.DeqLoad? {
      assert q == [q[0]] + q[1..];
      RingPop(m.queue, m.deq, q[0], q[1..]);
    } else {
      RingPop(m.queue, m.deq, pc.c, q);
    }
  }

  lemma RemoveStep(m: Ring, pc: Pc, q: seq<Command>, taken: nat)
    requires Shape(m, pc, q) && (pc.DeqAdvance? || pc.DeqFlag?)
    ensures InBounds(m)
    ensures Shape(Touch(m, pc), Next(m, pc, taken), AfterOwner(pc, q))
    ensures FifoStep(q, pc, AfterOwner(pc, q), Next(m, pc, taken))
  {
  }

  lemma QuietStep(m: Ring, pc: Pc, q: seq<Command>, taken: nat)
    requires Shape(m, pc, q)
    requires pc.EnqTest? || pc.DeqTest? || pc.StatTest? || Unlocking(pc)
    ensures InBounds(m)
    ensures Shape(Touch(m, pc), Next(m, pc, taken), AfterOwner(pc, q))
    ensures FifoStep(q, pc, AfterOwner(pc, q), Next(m, pc, taken))
  {
    RestTests(m, q);
  }

  /** The ring, its indices and its flag follow the bounded queue at every step of the owner. */
  lemma OwnerStep(m: Ring, pc: Pc, q: seq<Command>, taken: nat)
    requires Shape(m, pc, q) && Critical(pc)
    ensures InBounds(m)
    ensures Shape(Touch(m, pc), Next(m, pc, taken), AfterOwner(pc, q))
    ensures FifoStep(q, pc, AfterOwner(pc, q), Next(m, pc, taken))
    ensures pc.DeqLoad? ==> q != [] && m.queue[m.deq] == q[0]
  {
    if pc.EnqStore? || pc.EnqAdvance? || pc.EnqFlag? {
      StoreStep(m, pc, q, taken);
    } else if pc.DeqLoad? || pc.DeqZero? {
      LoadStep(m, pc, q, taken);
    } else if pc.DeqAdvance? || pc.DeqFlag? {
      RemoveStep(m, pc, q, taken);
    } else {
      QuietStep(m, pc, q, taken);
    }
  }

  // ---- One step of any thread -----------------------------------------------------------

  /** A command is taken from the front and handed to the thread at `DeqLoad`. */
  lemma TicketsTake(s: State, s': State, t: nat, c: Command)
    requires Tickets(s) && !HasTicket(PcOf(s, t))
    requires s'.taken == s.taken + [c] && s'.settled == s.settled
    requires s'.pcs == s.pcs[t := DeqZero(c, |s.taken|)]
    ensures Tickets(s')
  {
    assert PcOf(s', t) == DeqZero(c, |s.taken|);
    assert forall u: nat :: u != t ==> PcOf(s', u) == PcOf(s, u);
    assert forall u: nat :: u != t ==> Carries(s, PcOf(s, u));
    assert Holding(s', t, |s.taken|);
    forall k: nat | k < |s'.taken| && k !in s'.settled ensures exists u: nat :: Holding(s', u, k) {
      if k < |s.taken| {
        var u: nat :| Holding(s, u, k);
        assert Holding(s', u, k);
      }
    }
    forall u: nat, v: nat, k: nat | Holding(s', u, k) && Holding(s', v, k) ensures u == v {
      assert u != t ==> Holding(s, u, k);
      assert v != t ==> Holding(s, v, k);
    }
  }

  /** A thread moves on, keeping its ticket if it has one. */
  lemma TicketsKeep(s: State, s': State, t: nat, pc': Pc)
    requires Tickets(s) && Carries(s, pc')
    requires HasTicket(PcOf(s, t)) == HasTicket(pc')
    requires HasTicket(pc') ==> pc'.ticket == PcOf(s, t).ticket
    requires s'.taken == s.taken && s'.settled == s.settled && s'.pcs == s.pcs[t := pc']
    ensures Tickets(s')
  {
    assert PcOf(s', t) == pc';
    assert forall u: nat :: u != t ==> PcOf(s', u) == PcOf(s, u);
    assert forall u: nat :: u != t ==> Carries(s, PcOf(s, u));
    assert forall u: nat, k: nat :: Holding(s', u, k) <==> Holding(s, u, k);
  }

  /** A thread settles its command. */
  lemma TicketsSettle(s: State, t: nat)
    requires Tickets(s) && PcOf(s, t).DeqExec? && s.mode == IDLE
    ensures Tickets(Execute(s, t, PcOf(s, t).c, PcOf(s, t).ticket))
  {
    var pc := PcOf(s, t);
    var s' := Execute(s, t, pc.c, pc.ticket);
    assert Carries(s, pc) && Holding(s, t, pc.ticket);
    assert PcOf(s', t) == Outside;
    assert forall u: nat :: u != t ==> PcOf(s', u) == PcOf(s, u);
    forall u: nat ensures Carries(s', PcOf(s', u)) {
      if u != t {
        assert Carries(s, PcOf(s, u));
        assert HasTicket(PcOf(s, u)) ==> Holding(s, u, PcOf(s, u).ticket);
      }
    }
    forall k: nat | k < |s'.taken| && k !in s'.settled ensures exists u: nat :: Holding(s', u, k) {
      var u: nat :| Holding(s, u, k);
      assert Holding(s', u, k);
    }
    assert forall u: nat, k: nat :: Holding(s', u, k) ==> Holding(s, u, k);
  }

  lemma ExclusiveStep(s: State, s': State, t: nat, pc': Pc)
    requires Exclusive(s) && s'.pcs == s.pcs[t := pc']
    requires if Critical(pc') then s'.owner == Some(t) && (s.owner.None? || s.owner == Some(t))
             else s'.owner == if s.owner == Some(t) then None else s.owner
    ensures Exclusive(s')
    ensures s'.owner.Some? && s'.owner != Some(t) ==> OwnerPc(s') == OwnerPc(s)
  {
  }

  /** The histories follow the bounded queue. */
  lemma InsideFifo(s: State, t: nat, pc: Pc)
    requires s.taken <= s.accepted && Critical(pc) && InBounds(s.ring)
    requires forall i :: 0 <= i < |s.accepted| ==> ValidCommand(s.accepted[i])
    requires pc.EnqStore? ==> ValidCommand(pc.cmd)
    requires pc.DeqLoad? ==> Fifo(s) != [] && s.ring.queue[s.ring.deq] == Fifo(s)[0]
    ensures var s' := Inside(s, t, pc);
            && s'.taken <= s'.accepted && Fifo(s') == AfterOwner(pc, Fifo(s))
            && forall i :: 0 <= i < |s'.accepted| ==> ValidCommand(s'.accepted[i])
  {
  }

  lemma InsideTickets(s: State, t: nat)
    requires Tickets(s) && Critical(PcOf(s, t)) && InBounds(s.ring)
    ensures Tickets(Inside(s, t, PcOf(s, t)))
  {
    var pc := PcOf(s, t);
    var s' := Inside(s, t, pc);
    assert Carries(s, pc);
    if pc.DeqLoad? {
      TicketsTake(s, s', t, s.ring.queue[s.ring.deq]);
    } else {
      TicketsKeep(s, s', t, Next(s.ring, pc, |s.taken|));
    }
  }

  lemma LeavesAtRest(m: Ring, pc: Pc, q: seq<Command>)
    requires Shape(m, pc, q) && !Critical(pc)
    ensures Shape(m, Outside, q)
  {
  }

  /** Every command accepted is acknowledged, the last one perhaps not yet. */
  lemma InsideAcks(s: State, t: nat, pc: Pc)
    requires Critical(pc) && InBounds(s.ring)
    requires s.acks + (if Unacknowledged(pc) then 1 else 0) == |s.accepted|
    ensures var s' := Inside(s, t, pc);
            s'.acks + (if Unacknowledged(Next(s.ring, pc, |s.taken|)) then 1 else 0) == |s'.accepted|
  {
  }

  /** The owner's step keeps the invariant and acts on the bounded queue. */
  lemma InsideInv(s: State, t: nat)
    requires Inv(s) && Critical(PcOf(s, t))
    ensures InBounds(s.ring)
    ensures var s' := Inside(s, t, PcOf(s, t));
            Inv(s') && FifoStep(Fifo(s), PcOf(s, t), Fifo(s'), PcOf(s', t))
  {
    var pc := PcOf(s, t);
    assert s.owner == Some(t) && OwnerPc(s) == pc && Carries(s, pc);
    OwnerStep(s.ring, pc, Fifo(s), |s.taken|);
    InsideFifo(s, t, pc);
    InsideTickets(s, t);
    var pc', s' := Next(s.ring, pc, |s.taken|), Inside(s, t, pc);
    ExclusiveStep(s, s', t, pc');
    if !Critical(pc') {
      LeavesAtRest(s'.ring, pc', Fifo(s'));
    }
    InsideAcks(s, t, pc);
    assert OwnerPc(s') == if Critical(pc') then pc' else Outside;
  }

  /** Every step of every thread keeps the invariant and acts on the bounded queue. */
  lemma StepRefines(s: State, t: nat, call: Call)
    requires Inv(s)
    ensures InBounds(s.ring)
    ensures var s' := Step(s, t, call);
            Inv(s') && FifoStep(Fifo(s), PcOf(s, t), Fifo(s'), PcOf(s', t))
  {
    var pc := PcOf(s, t);
    ShapeInBounds(s.ring, OwnerPc(s), Fifo(s));
    var s' := Step(s, t, call);
    assert Carries(s, pc);
    if Critical(pc) {
      InsideInv(s, t);
    } else if pc.DeqExec? {
      TicketsSettle(s, t);
      ExclusiveStep(s, s', t, Outside);
    } else {
      WaitingInv(s, t, call);
    }
  }

  /** Entering a function, or waiting for the mutex and getting it. */
  lemma WaitingInv(s: State, t: nat, call: Call)
    requires Inv(s) && InBounds(s.ring) && (PcOf(s, t).Outside? || Waiting(PcOf(s, t)))
    ensures Inv(Step(s, t, call)) && Fifo(Step(s, t, call)) == Fifo(s)
    ensures PcOf(s, t).Outside? ==>
              match call
              case Enqueue(cmd) =>
                PcOf(Step(s, t, call), t) == if Validate(cmd) == ERROR_NONE then EnqLock(cmd.value) else Outside
              case Process => PcOf(Step(s, t, call), t) == DeqLock
              case Status => PcOf(Step(s, t, call), t) == StatLock
    ensures s.owner.Some? && Waiting(PcOf(s, t)) ==> Step(s, t, call) == s
    ensures s.owner.None? && PcOf(s, t).EnqLock? ==> PcOf(Step(s, t, call), t) == EnqTest(PcOf(s, t).cmd)
    ensures s.owner.None? && PcOf(s, t).DeqLock? ==> PcOf(Step(s, t, call), t) == DeqTest
    ensures s.owner.None? && PcOf(s, t).StatLock? ==> PcOf(Step(s, t, call), t) == StatTest
  {
    var s' := Step(s, t, call);
    if s' != s {
      var pc' := PcOf(s', t);
      assert Carries(s, PcOf(s, t));
      TicketsKeep(s, s', t, pc');
      ExclusiveStep(s, s', t, pc');
    }
  }

  // ---- Whole runs -----------------------------------------------------------------------

  /** The state after a schedule: which thread moves, and what it calls if it is idle. */
  function Run(s: State, schedule: seq<(nat, Call)>): State
    decreases |schedule|
  {
    if |schedule| == 0 || !InBounds(s.ring) then s
    else Run(Step(s, schedule[0].0, schedule[0].1), schedule[1..])
  }

  lemma InitInv()
    ensures Inv(Init())
  {
  }

  lemma {:induction false} RunInv(s: State, schedule: seq<(nat, Call)>)
    requires Inv(s)
    ensures Inv(Run(s, schedule))
    decreases |schedule|
  {
    if |schedule| > 0 {
      StepRefines(s, schedule[0].0, schedule[0].1);
      RunInv(Step(s, schedule[0].0, schedule[0].1), schedule[1..]);
    }
  }

  /** The commands taken are the first ones accepted, in order, and every one of them is settled or
      in the hands of one thread; whenever the mutex is free the ring holds exactly the rest, its
      other slots are zeroed, and every accepted command has been acknowledged. */
  ghost predicate IsFifo(s: State) {
    && s.taken <= s.accepted && |Fifo(s)| <= MAX_QUEUE_SIZE
    && (s.owner.None? ==> AtRest(s.ring, Fifo(s)) && s.acks == |s.accepted|)
    && (forall i :: 0 <= i < |Fifo(s)| ==> ValidCommand(Fifo(s)[i]))
    && Tickets(s) && Exclusive(s) && s.mode == IDLE
  }

  lemma InvIsFifo(s: State)
    requires Inv(s)
    ensures IsFifo(s)
  {
    ShapeInBounds(s.ring, OwnerPc(s), Fifo(s));
  }

  /** Every schedule of every number of threads keeps the queue a FIFO. */
  lemma QueueIsFifo(schedule: seq<(nat, Call)>)
    ensures IsFifo(Run(Init(), schedule))
  {
    InitInv();
    RunInv(Init(), schedule);
    InvIsFifo(Run(Init(), schedule));
  }

  /** A command is executed exactly when it needs no mode but `idle`, then by the executor of its type,
      and the dispatcher's default branch is never taken. */
  lemma SettledAsValidated(schedule: seq<(nat, Call)>, k: nat)
    requires k in Run(Init(), schedule).settled
    ensures var s := Run(Init(), schedule);
            && k < |s.taken|
            && s.settled[k] != Default
            && (s.settled[k] == Rejected <==> s.taken[k].stateNeeded != IDLE)
            && (s.settled[k] == User <==> s.taken[k].stateNeeded == IDLE && s.taken[k].cmdType == 1)
            && (s.settled[k] == Perf <==> s.taken[k].stateNeeded == IDLE && s.taken[k].cmdType == 2)
            && (s.settled[k] == Admin <==> s.taken[k].stateNeeded == IDLE && s.taken[k].cmdType == 0)
  {
    InitInv();
    RunInv(Init(), schedule);
  }

  // ---- Linearizability ------------------------------------------------------------------

  /** What a call answers. A processed command answers with what it came to. */
  datatype Reply = Code(ret: int) | Ran(c: Command, outcome: Outcome)

  /** One call of one thread and its answer. */
  datatype Event = Event(thread: nat, call: Call, reply: Reply)

  /** The sequential bounded queue: the answer of a call that finds the commands `q` queued. */
  function Answer(q: seq<Command>, call: Call): Reply {
    match call
    case Enqueue(cmd) =>
      if cmd.None? || !(0 <= cmd.value.cmdType <= 2) || !(0 <= cmd.value.stateNeeded <= 3) then Code(ERROR_INPUT)
      else if |q| == 10 then Code(ERROR_FULL_QUEUE) else Code(ERROR_NONE)
    case Process =>
      if q == [] then Code(ERROR_EMPTY_QUEUE)
      else if q[0].stateNeeded != IDLE then Ran(q[0], Rejected)
      else Ran(q[0], if q[0].cmdType == 1 then User else if q[0].cmdType == 2 then Perf else Admin)
    case Status =>
      Code(if |q| == 0 then ERROR_EMPTY_QUEUE else if |q| == 10 then ERROR_FULL_QUEUE else ERROR_NONE)
  }

  /** The commands queued after the call. */
  function After(q: seq<Command>, call: Call): seq<Command> {
    if call.Enqueue? && Answer(q, call) == Code(ERROR_NONE) then q + [call.cmd.value]
    else if call.Process? && q != [] then q[1..]
    else q
  }

  /** The commands queued after all calls of a log. */
  function Contents(log: seq<Event>): seq<Command> {
    if |log| == 0 then [] else After(Contents(log[..|log| - 1]), log[|log| - 1].call)
  }

  /** Every call of the log is answered as the sequential queue answers it. */
  predicate Legal(log: seq<Event>) {
    |log| > 0 ==>
      var before, last := log[..|log| - 1], log[|log| - 1];
      Legal(before) && last.reply == Answer(Contents(before), last.call)
  }

  /** The calls of thread `u` in a log, with their answers. */
  function Calls(log: seq<Event>, u: nat): seq<(Call, Reply)> {
    if |log| == 0 then [] else
    var before, last := Calls(log[..|log| - 1], u), log[|log| - 1];
    if last.thread == u then before + [(last.call, last.reply)] else before
  }

  /** The commands that the calls of a log put into the queue. */
  function Stored(log: seq<Event>): seq<Command> {
    if |log| == 0 then [] else
    var before, last := Stored(log[..|log| - 1]), log[|log| - 1];
    if last.call.Enqueue? && last.call.cmd.Some? && last.reply == Code(ERROR_NONE)
    then before + [last.call.cmd.value] else before
  }

  /** The commands that the calls of a log took out of it. */
  function Taken(log: seq<Event>): seq<Command> {
    if |log| == 0 then [] else
    var before, last := Taken(log[..|log| - 1]), log[|log| - 1];
    if last.reply.Ran? then before + [last.reply.c] else before
  }

  function Add<T>(xs: seq<T>, x: Option<T>): seq<T> {
    if x.Some? then xs + [x.value] else xs
  }

  lemma AddToLog(log: seq<Event>, e: Event, u: nat)
    ensures Contents(log + [e]) == After(Contents(log), e.call)
    ensures Legal(log + [e]) <==> Legal(log) && e.reply == Answer(Contents(log), e.call)
    ensures Calls(log + [e], u) == if e.thread == u then Calls(log, u) + [(e.call, e.reply)] else Calls(log, u)
  {
    assert (log + [e])[..|log|] == log;
  }

  lemma AddToHistories(log: seq<Event>, e: Event)
    ensures Stored(log + [e]) == Add(Stored(log), StoredBy(e))
    ensures Taken(log + [e]) == Add(Taken(log), TakenBy(e))
  {
    assert (log + [e])[..|log|] == log;
  }

  function StoredBy(e: Event): Option<Command> {
    if e.call.Enqueue? && e.reply == Code(ERROR_NONE) then e.call.cmd else None
  }

  function TakenBy(e: Event): Option<Command> {
    if e.reply.Ran? then Some(e.reply.c) else None
  }

  /** The call that takes effect with a step of thread `t` from `pc` to `pc'`, if one does. */
  function Point(t: nat, pc: Pc, call: Call, pc': Pc): Option<Event> {
    match pc
    case Outside => if pc'.Outside? then Some(Event(t, call, Code(ERROR_INPUT))) else None
    case EnqTest(cmd) => if pc'.EnqUnlock? then Some(Event(t, Enqueue(Some(cmd)), Code(pc'.ret))) else None
    case EnqStore(cmd) => Some(Event(t, Enqueue(Some(cmd)), Code(ERROR_NONE)))
    case DeqTest => if pc'.DeqUnlockEmpty? then Some(Event(t, Process, Code(ERROR_EMPTY_QUEUE))) else None
    case DeqLoad => if pc'.DeqZero? then Some(Event(t, Process, Ran(pc'.c, Verdict(pc'.c)))) else None
    case StatTest => if pc'.StatUnlock? then Some(Event(t, Status, Code(pc'.ret))) else None
    case _ => None
  }

  /** What can be seen of one thread: the call it is in, and its finished calls with their answers. */
  datatype Client = Client(current: Option<Call>, finished: seq<(Call, Reply)>)

  /** A step of a thread as seen from outside: an idle thread begins the call it is asked to make, and
      a thread that is idle afterwards has been given its answer. */
  function Seen(v: Client, pc: Pc, call: Call, pc': Pc, reply: Reply): Client {
    var current := if pc.Outside? then Some(call) else v.current;
    if pc'.Outside? && current.Some? then Client(None, v.finished + [(current.value, reply)])
    else Client(current, v.finished)
  }

  /** The answer of a call that ends with a step from `pc` to the state `s`. */
  function ReplyOf(pc: Pc, s: State): Reply {
    match pc
    case EnqUnlock(ret) => Code(ret)
    case StatUnlock(ret) => Code(ret)
    case DeqUnlockEmpty => Code(ERROR_EMPTY_QUEUE)
    case DeqExec(c, k) => Ran(c, if k in s.settled then s.settled[k] else Default)
    case _ => Code(ERROR_INPUT)
  }

  /** A state, the calls that have taken effect, in that order, and what has been seen of thread `u`. */
  datatype Trace = Trace(s: State, log: seq<Event>, client: Client)

  function Extend(r: Trace, t: nat, call: Call, u: nat): Trace
    requires InBounds(r.s.ring)
  {
    var s' := Step(r.s, t, call);
    var pc, pc' := PcOf(r.s, t), PcOf(s', t);
    Trace(s', Add(r.log, Point(t, pc, call, pc')),
          if t == u then Seen(r.client, pc, call, pc', ReplyOf(pc, s')) else r.client)
  }

  /** A schedule, watched. */
  function Watch(r: Trace, schedule: seq<(nat, Call)>, u: nat): Trace
    decreases |schedule|
  {
    if |schedule| == 0 || !InBounds(r.s.ring) then r
    else Watch(Extend(r, schedule[0].0, schedule[0].1, u), schedule[1..], u)
  }

  /** Where the code leads from `pc`. */
  predicate Flow(pc: Pc, call: Call, pc': Pc) {
    match pc
    case Outside =>
      pc' == (match call
              case Enqueue(cmd) => if Validate(cmd) == ERROR_NONE then EnqLock(cmd.value) else Outside
              case Process => DeqLock
              case Status => StatLock)
    case EnqLock(cmd) => pc' == pc || pc' == EnqTest(cmd)
    case EnqTest(cmd) => pc' == EnqStore(cmd) || pc' == EnqUnlock(ERROR_FULL_QUEUE)
    case EnqStore(_) => pc' == EnqAdvance
    case EnqAdvance => pc' == EnqFlag
    case EnqFlag => pc' == EnqUnlock(ERROR_NONE)
    case EnqUnlock(_) => pc' == Outside
    case DeqLock => pc' == pc || pc' == DeqTest
    case DeqTest => pc' == DeqUnlockEmpty || pc' == DeqLoad
    case DeqLoad => pc'.DeqZero?
    case DeqZero(c, k) => pc' == DeqAdvance(c, k)
    case DeqAdvance(c, k) => pc' == DeqFlag(c, k)
    case DeqFlag(c, k) => pc' == DeqUnlock(c, k)
    case DeqUnlock(c, k) => pc' == DeqExec(c, k)
    case DeqUnlockEmpty => pc' == Outside
    case DeqExec(_, _) => pc' == Outside
    case StatLock => pc' == pc || pc' == StatTest
    case StatTest => pc'.StatUnlock?
    case StatUnlock(_) => pc' == Outside
  }

  lemma StepFlow(s: State, t: nat, call: Call)
    requires InBounds(s.ring)
    ensures Flow(PcOf(s, t), call, PcOf(Step(s, t, call), t))
    ensures forall u: nat :: u != t ==> PcOf(Step(s, t, call), u) == PcOf(s, u)
  {
  }

  /** What a step comes to for the sequential queue. */
  lemma PointIsLegal(t: nat, pc: Pc, call: Call, pc': Pc, q: seq<Command>, q': seq<Command>)
    requires FifoStep(q, pc, q', pc') && Flow(pc, call, pc')
    requires pc.EnqTest? || pc.EnqStore? ==> ValidCommand(pc.cmd)
    requires q != [] ==> ValidCommand(q[0])
    ensures var point := Point(t, pc, call, pc');
            if point.None? then q' == q
            else point.value.reply == Answer(q, point.value.call) && q' == After(q, point.value.call)
  {
  }

  /** The log is that of a sequential queue and accounts for what is queued, accepted and taken. */
  ghost predicate LogAgrees(r: Trace) {
    && Inv(r.s) && Legal(r.log) && Contents(r.log) == Fifo(r.s)
    && Stored(r.log) == r.s.accepted && Taken(r.log) == r.s.taken
  }

  lemma HistoryStep(s: State, t: nat, call: Call)
    requires InBounds(s.ring)
    ensures var s' := Step(s, t, call);
            var point := Point(t, PcOf(s, t), call, PcOf(s', t));
            && s'.accepted == Add(s.accepted, if point.Some? then StoredBy(point.value) else None)
            && s'.taken == Add(s.taken, if point.Some? then TakenBy(point.value) else None)
  {
  }

  lemma CarriedAreValid(s: State, t: nat)
    requires Inv(s)
    ensures PcOf(s, t).EnqTest? || PcOf(s, t).EnqStore? ==> ValidCommand(PcOf(s, t).cmd)
    ensures Fifo(s) != [] ==> ValidCommand(Fifo(s)[0])
  {
    assert Carries(s, PcOf(s, t));
  }

  lemma LogStep(r: Trace, t: nat, call: Call, u: nat)
    requires LogAgrees(r)
    ensures InBounds(r.s.ring) && LogAgrees(Extend(r, t, call, u))
  {
    StepRefines(r.s, t, call);
    var s' := Step(r.s, t, call);
    var point := Point(t, PcOf(r.s, t), call, PcOf(s', t));
    StepFlow(r.s, t, call);
    CarriedAreValid(r.s, t);
    PointIsLegal(t, PcOf(r.s, t), call, PcOf(s', t), Fifo(r.s), Fifo(s'));
    HistoryStep(r.s, t, call);
    if point.Some? {
      AddToLog(r.log, point.value, u);
      AddToHistories(r.log, point.value);
    }
  }

  /** A thread stands inside the call it was asked to make, with the command it was given. */
  predicate Within(pc: Pc, current: Option<Call>) {
    match pc
    case Outside => current.None?
    case EnqLock(cmd) => current == Some(Enqueue(Some(cmd)))
    case EnqTest(cmd) => current == Some(Enqueue(Some(cmd)))
    case EnqStore(cmd) => current == Some(Enqueue(Some(cmd)))
    case EnqAdvance => current.Some? && current.value.Enqueue?
    case EnqFlag => current.Some? && current.value.Enqueue?
    case EnqUnlock(_) => current.Some? && current.value.Enqueue?
    case StatLock => current == Some(Status)
    case StatTest => current == Some(Status)
    case StatUnlock(_) => current == Some(Status)
    case _ => current == Some(Process)
  }

  /** The call that has taken effect and has not ended, with the answer it will give. */
  function Owed(pc: Pc, current: Option<Call>): (owed: Option<(Call, Reply)>)
    ensures owed.Some? ==> current == Some(owed.value.0)
  {
    if current.None? then None
    else if pc.EnqAdvance? || pc.EnqFlag? then Some((current.value, Code(ERROR_NONE)))
    else if pc.EnqUnlock? || pc.StatUnlock? then Some((current.value, Code(pc.ret)))
    else if pc.DeqUnlockEmpty? then Some((current.value, Code(ERROR_EMPTY_QUEUE)))
    else if HasTicket(pc) then Some((current.value, Ran(pc.c, Verdict(pc.c))))
    else None
  }

  /** The thread's calls in the log are its finished calls and at most the one it is in. */
  predicate ClientAgrees(pc: Pc, v: Client, calls: seq<(Call, Reply)>) {
    Within(pc, v.current) && calls == Add(v.finished, Owed(pc, v.current))
  }

  lemma SeenWithin(pc: Pc, call: Call, pc': Pc, reply: Reply, v: Client)
    requires Flow(pc, call, pc') && Within(pc, v.current)
    ensures Within(pc', Seen(v, pc, call, pc', reply).current)
  {
  }

  lemma SeenStep(t: nat, pc: Pc, call: Call, pc': Pc, reply: Reply, v: Client, calls: seq<(Call, Reply)>)
    requires Flow(pc, call, pc') && ClientAgrees(pc, v, calls)
    requires pc.EnqUnlock? || pc.StatUnlock? ==> reply == Code(pc.ret)
    requires pc.DeqUnlockEmpty? ==> reply == Code(ERROR_EMPTY_QUEUE)
    requires pc.DeqExec? ==> reply == Ran(pc.c, Verdict(pc.c))
    requires pc.Outside? ==> reply == Code(ERROR_INPUT)
    ensures var point := Point(t, pc, call, pc');
            var calls' := Add(calls, if point.Some? then Some((point.value.call, point.value.reply)) else None);
            ClientAgrees(pc', Seen(v, pc, call, pc', reply), calls')
  {
    SeenWithin(pc, call, pc', reply, v);
    var point, owed := Point(t, pc, call, pc'), Owed(pc, v.current);
    if pc'.Outside? {
      assert if pc.Outside? then point == Some(Event(t, call, reply)) else owed == Some((v.current.value, reply));
    } else if pc.Outside? {
      assert point.None? && owed.None?;
    } else {
      assert owed.Some? ==> point.None? && Owed(pc', v.current) == owed;
    }
  }

  ghost predicate Agrees(r: Trace, u: nat) {
    LogAgrees(r) && ClientAgrees(PcOf(r.s, u), r.client, Calls(r.log, u))
  }

  lemma ExtendAgrees(r: Trace, t: nat, call: Call, u: nat)
    requires Agrees(r, u)
    ensures InBounds(r.s.ring) && Agrees(Extend(r, t, call, u), u)
  {
    LogStep(r, t, call, u);
    StepFlow(r.s, t, call);
    var s' := Step(r.s, t, call);
    var pc, pc' := PcOf(r.s, t), PcOf(s', t);
    var point := Point(t, pc, call, pc');
    if point.Some? {
      AddToLog(r.log, point.value, u);
    }
    if t == u {
      SeenStep(t, pc, call, pc', ReplyOf(pc, s'), r.client, Calls(r.log, u));
    }
  }

  lemma {:induction false} WatchAgrees(r: Trace, schedule: seq<(nat, Call)>, u: nat)
    requires Agrees(r, u)
    ensures Agrees(Watch(r, schedule, u), u) && Watch(r, schedule, u).s == Run(r.s, schedule)
    decreases |schedule|
  {
    if |schedule| > 0 {
      ExtendAgrees(r, schedule[0].0, schedule[0].1, u);
      WatchAgrees(Extend(r, schedule[0].0, schedule[0].1, u), schedule[1..], u);
    }
  }

  /** Which thread is watched makes no difference to the log. */
  lemma {:induction false} OneLog(r: Trace, r': Trace, schedule: seq<(nat, Call)>, u: nat, u': nat)
    requires r.s == r'.s && r.log == r'.log
    ensures Watch(r, schedule, u).log == Watch(r', schedule, u').log
    decreases |schedule|
  {
    if |schedule| > 0 && InBounds(r.s.ring) {
      var (t, call) := schedule[0];
      OneLog(Extend(r, t, call, u), Extend(r', t, call, u'), schedule[1..], u, u');
    }
  }

  /** The calls of a schedule in the order in which they take effect. */
  function Log(schedule: seq<(nat, Call)>): seq<Event> {
    Watch(Trace(Init(), [], Client(None, [])), schedule, 0).log
  }

  /** What is seen of thread `u`. */
  function ClientOf(schedule: seq<(nat, Call)>, u: nat): Client {
    Watch(Trace(Init(), [], Client(None, [])), schedule, u).client
  }

  /** The command queue is linearizable. For every schedule of any number of threads there is one order
      of calls that a sequential queue of capacity ten answers the same way; it leaves the commands now
      queued, the commands accepted are the arguments of its enqueue calls answered ERROR_NONE and
      those taken are what its process calls ran; and each thread's calls in it are its finished
      calls, with the arguments it passed and the answers it got, and at most the call it is in. */
  lemma Linearizable(schedule: seq<(nat, Call)>, u: nat)
    ensures var s, log, v := Run(Init(), schedule), Log(schedule), ClientOf(schedule, u);
            && Legal(log) && |s.taken| <= |s.accepted| && Contents(log) == Fifo(s)
            && Stored(log) == s.accepted && Taken(log) == s.taken
            && (v.current.None? <==> PcOf(s, u).Outside?)
            && Calls(log, u) == Add(v.finished, Owed(PcOf(s, u), v.current))
  {
    InitInv();
    var r := Trace(Init(), [], Client(None, []));
    WatchAgrees(r, schedule, u);
    OneLog(r, r, schedule, 0, u);
  }

  // ---- Whole calls ----------------------------------------------------------------------

  /** How many steps of its own a thread is away from the end of its call, at most. */
  function Remaining(pc: Pc): nat {
    match pc
    case Outside => 0
    case EnqLock(_) => 6
    case EnqTest(_) => 5
    case EnqStore(_) => 4
    case EnqAdvance => 3
    case EnqFlag => 2
    case EnqUnlock(_) => 1
    case DeqLock => 8
    case DeqTest => 7
    case DeqLoad => 6
    case DeqZero(_, _) => 5
    case DeqAdvance(_, _) => 4
    case DeqFlag(_, _) => 3
    case DeqUnlock(_, _) => 2
    case DeqUnlockEmpty => 1
    case DeqExec(_, _) => 1
    case StatLock => 3
    case StatTest => 2
    case StatUnlock(_) => 1
  }

  /** The indices and slots the code was compiled for. */
  predicate InRange(m: Ring) {
    |m.queue| == MAX_QUEUE_SIZE && InBounds(m)
  }

  /** The steps of a critical section from `pc` up to its unlock, one after the other: the ring they
      leave and the unlock they reach. */
  function Section(m: Ring, pc: Pc, taken: nat): (Ring, Pc)
    requires InRange(m) && Critical(pc)
    decreases Remaining(pc)
  {
    if Unlocking(pc) then (m, pc) else Section(Touch(m, pc), Next(m, pc, taken), taken)
  }

  /** `n` turns of thread `t`. */
  function Turns(t: nat, n: nat): seq<(nat, Call)> {
    if n == 0 then [] else [(t, Status)] + Turns(t, n - 1)
  }

  lemma RunTurns(s: State, t: nat, n: nat)
    requires InBounds(s.ring)
    ensures Run(s, Turns(t, n + 1)) == Run(Step(s, t, Status), Turns(t, n))
  {
    assert Turns(t, n + 1)[1..] == Turns(t, n);
  }

  /** Left alone, a thread inside the mutex makes exactly these steps. */
  lemma {:induction false} AloneIsSection(s: State, t: nat, taken: nat) returns (n: nat)
    requires InRange(s.ring) && Critical(PcOf(s, t))
    requires PcOf(s, t).DeqTest? || PcOf(s, t).DeqLoad? ==> taken == |s.taken|
    ensures var s' := Run(s, Turns(t, n));
            (s'.ring, PcOf(s', t)) == Section(s.ring, PcOf(s, t), taken)
    decreases Remaining(PcOf(s, t))
  {
    var pc := PcOf(s, t);
    if Unlocking(pc) {
      n := 0;
    } else {
      var s' := Step(s, t, Status);
      assert s'.ring == Touch(s.ring, pc) && PcOf(s', t) == Next(s.ring, pc, taken);
      var m := AloneIsSection(s', t, taken);
      RunTurns(s, t, m);
      n := m + 1;
    }
  }

  /** Nothing but the mutex holds a thread up. */
  lemma AloneStep(s: State, t: nat)
    requires InBounds(s.ring) && Exclusive(s) && (s.owner.None? || s.owner == Some(t)) && !PcOf(s, t).Outside?
    ensures var s' := Step(s, t, Status);
            && (s'.owner.None? || s'.owner == Some(t))
            && Remaining(PcOf(s', t)) < Remaining(PcOf(s, t))
  {
  }

  /** A thread that is not kept out of the mutex finishes its call within eight steps. */
  lemma {:induction false} AloneFinishes(s: State, t: nat) returns (n: nat)
    requires Inv(s) && (s.owner.None? || s.owner == Some(t))
    ensures n <= Remaining(PcOf(s, t)) <= 8
    ensures PcOf(Run(s, Turns(t, n)), t).Outside?
    decreases Remaining(PcOf(s, t))
  {
    if PcOf(s, t).Outside? {
      n := 0;
    } else {
      StepRefines(s, t, Status);
      AloneStep(s, t);
      var m := AloneFinishes(Step(s, t, Status), t);
      RunTurns(s, t, m);
      n := m + 1;
    }
  }

  /** What the section of `enqueue_command` comes to. */
  lemma EnqueueSection(m: Ring, cmd: Command, taken: nat)
    requires InRange(m)
    ensures Section(m, EnqTest(cmd), taken)
         == if FullTest(m) then (m, EnqUnlock(ERROR_FULL_QUEUE))
            else (Ring(m.queue[m.enq := cmd], NextIndex(m.enq), m.deq, false), EnqUnlock(ERROR_NONE))
  {
    if !FullTest(m) {
      var stored := m.(queue := m.queue[m.enq := cmd]);
      var advanced := stored.(enq := NextIndex(m.enq));
      assert Section(advanced, EnqFlag, taken) == (advanced.(isEmpty := false), EnqUnlock(ERROR_NONE));
      assert Section(stored, EnqAdvance, taken) == Section(advanced, EnqFlag, taken);
      assert Section(m, EnqStore(cmd), taken) == Section(stored, EnqAdvance, taken);
    }
  }

  /** What the section of `processNextCommandInQueue` comes to. */
  lemma ProcessSection(m: Ring, taken: nat)
    requires InRange(m)
    ensures Section(m, DeqTest, taken)
         == if m.isEmpty then (m, DeqUnlockEmpty)
            else var deq := NextIndex(m.deq);
              (Ring(m.queue[m.deq := ZERO], m.enq, deq, deq == m.enq), DeqUnlock(m.queue[m.deq], taken))
  {
    if !m.isEmpty {
      var c := m.queue[m.deq];
      var zeroed := m.(queue := m.queue[m.deq := ZERO]);
      var advanced := zeroed.(deq := NextIndex(m.deq));
      assert Section(advanced, DeqFlag(c, taken), taken)
          == (advanced.(isEmpty := advanced.deq == m.enq), DeqUnlock(c, taken));
      assert Section(zeroed, DeqAdvance(c, taken), taken) == Section(advanced, DeqFlag(c, taken), taken);
      assert Section(m, DeqZero(c, taken), taken) == Section(zeroed, DeqAdvance(c, taken), taken);
      assert Section(m, DeqLoad, taken) == Section(m, DeqZero(c, taken), taken);
    }
  }

  /** The result of running a command: `userResult` is what the drive answers. */
  function Result(c: Command, userResult: int): int {
    match Verdict(c)
    case Rejected => ERROR_STATE
    case User => userResult
    case Perf => ERROR_NOT_SUPPORTED
    case Admin => ERROR_NOT_SUPPORTED
    case Default => ERROR_INPUT
  }

  /** The queue object with each function taken as one call, as a thread that meets no contention
      sees it. */
  class Queue {
    const queue: array<Command>
    var enqueueIndex: nat
    var dequeueIndex: nat
    var state: int
    var isQueueEmpty: bool
    var isInitComplete: bool
    ghost var contents: seq<Command>

    ghost predicate Valid()
      reads this, queue
    {
      && queue.Length == MAX_QUEUE_SIZE
      && (isInitComplete ==>
            && state == IDLE
            && AtRest(Shared(), contents)
            && forall i :: 0 <= i < |contents| ==> ValidCommand(contents[i]))
    }

    /** The guarded fields. */
    ghost function Shared(): Ring
      reads this, queue
    {
      Ring(queue[..], enqueueIndex, dequeueIndex, isQueueEmpty)
    }

    /** A zeroed global, before `commandQueueInit`. */
    constructor ()
      ensures Valid() && !isInitComplete && fresh(queue)
    {
      queue := new Command[MAX_QUEUE_SIZE](_ => ZERO);
      enqueueIndex, dequeueIndex, state, isQueueEmpty, isInitComplete := 0, 0, 0, false, false;
      contents := [];
    }

    /** `commandQueueInit`. */
    method Init(mutexOk: bool) returns (ret: int)
      requires Valid()
      modifies this, queue
      ensures Valid() && isInitComplete == mutexOk
      ensures ret == if mutexOk then ERROR_NONE else ERROR_GENERAL
      ensures mutexOk ==> contents == []
    {
      forall i | 0 <= i < MAX_QUEUE_SIZE {
        queue[i] := ZERO;
      }
      enqueueIndex, dequeueIndex, state, isQueueEmpty, isInitComplete := 0, 0, 0, false, false;
      if !mutexOk {
        return ERROR_GENERAL;
      }
      isQueueEmpty, isInitComplete, state := true, true, IDLE;
      contents := [];
      return ERROR_NONE;
    }

    /** `enqueue_command`. */
    method Enqueue(cmd: Option<Command>, ghost taken: nat) returns (ret: int)
      requires Valid()
      modifies this, queue
      ensures Valid() && isInitComplete == old(isInitComplete)
      ensures ret == if !isInitComplete then ERROR_NO_INIT
                     else if Validate(cmd) != ERROR_NONE then ERROR_INPUT
                     else if |old(contents)| == MAX_QUEUE_SIZE then ERROR_FULL_QUEUE else ERROR_NONE
      ensures contents == if ret == ERROR_NONE then old(contents) + [cmd.value] else old(contents)
      ensures isInitComplete ==>
                && Code(ret) == Answer(old(contents), Call.Enqueue(cmd))
                && contents == After(old(contents), Call.Enqueue(cmd))
      ensures isInitComplete && Validate(cmd) == ERROR_NONE ==>
                Section(old(Shared()), EnqTest(cmd.value), taken) == (Shared(), EnqUnlock(ret))
    {
      if !isInitComplete {
        return ERROR_NO_INIT;
      }
      ret := Validate(cmd);
      if ret != ERROR_NONE {
        return;
      }
      ghost var m := Shared();
      EnqueueSection(m, cmd.value, taken);
      RestTests(m, contents);
      if !isQueueEmpty && enqueueIndex == dequeueIndex {
        return ERROR_FULL_QUEUE;
      }
      PushAtRest(m, contents, cmd.value);
      queue[enqueueIndex] := cmd.value;
      assert queue[..] == m.queue[m.enq := cmd.value];
      enqueueIndex := NextIndex(enqueueIndex);
      isQueueEmpty := false;
      contents := contents + [cmd.value];
    }

    /** `processNextCommandInQueue`. */
    method ProcessNext(userResult: int, ghost taken: nat) returns (ret: int)
      requires Valid()
      modifies this, queue
      ensures Valid() && isInitComplete == old(isInitComplete)
      ensures ret == if !isInitComplete then ERROR_NO_INIT
                     else if old(contents) == [] then ERROR_EMPTY_QUEUE
                     else Result(old(contents)[0], userResult)
      ensures contents == if isInitComplete && old(contents) != [] then old(contents)[1..] else old(contents)
      ensures isInitComplete && old(contents) != [] ==>
                ret == if old(contents)[0].stateNeeded != IDLE then ERROR_STATE
                       else if old(contents)[0].cmdType == 1 then userResult else ERROR_NOT_SUPPORTED
      ensures var unlock := if old(contents) == [] then DeqUnlockEmpty else DeqUnlock(old(contents)[0], taken);
              isInitComplete ==> Section(old(Shared()), DeqTest, taken) == (Shared(), unlock)
    {
      if !isInitComplete {
        return ERROR_NO_INIT;
      }
      ghost var m, q := Shared(), contents;
      ProcessSection(m, taken);
      if isQueueEmpty {
        return ERROR_EMPTY_QUEUE;
      }
      PopAtRest(m, q);
      var nextCommand := queue[dequeueIndex];
      queue[dequeueIndex] := ZERO;
      dequeueIndex := NextIndex(dequeueIndex);
      if dequeueIndex == enqueueIndex {
        isQueueEmpty := true;
      }
      assert queue[..] == m.queue[m.deq := ZERO];
      contents := contents[1..];
      if nextCommand.stateNeeded != state && nextCommand.stateNeeded != IDLE {
        return ERROR_STATE;
      }
      match Dispatch(nextCommand) {
        case User => return userResult;
        case Default => return ERROR_INPUT;
        case _ => return ERROR_NOT_SUPPORTED;
      }
    }

    /** `get_queue_status`. */
    method GetStatus(ghost taken: nat) returns (ret: int)
      requires Valid()
      ensures isInitComplete ==> Code(ret) == Answer(contents, Status)
      ensures isInitComplete ==> Section(Shared(), StatTest, taken) == (Shared(), StatUnlock(ret))
      ensures ret == if !isInitComplete then ERROR_NO_INIT
                     else if |contents| == 0 then ERROR_EMPTY_QUEUE
                     else if |contents| == MAX_QUEUE_SIZE then ERROR_FULL_QUEUE else ERROR_NONE
    {
      if !isInitComplete {
        return ERROR_NO_INIT;
      }
      RestTests(Shared(), contents);
      if isQueueEmpty {
        return ERROR_EMPTY_QUEUE;
      }
      return if enqueueIndex == dequeueIndex then ERROR_FULL_QUEUE else ERROR_NONE;
    }
  }
}
