/** The partition commands of the server and the guards of nvmeInterface.c: what SAFE_MODE keeps
    the commands from touching. */
module SafeMode {
  import opened Options
  import opened CInt

  type Sector = string

  /** A partition and its geometry, in absolute sectors, both ends included. */
  datatype Partition = Partition(name: string, start: nat, end: nat) {
    function Length(): int { end - start + 1 }
    predicate Covers(x: int) { start <= x <= end }
    predicate Prefixed() { "AESD" <= name }
  }

  datatype Disk = Disk(parts: map<int, Partition>, sectors: seq<Sector>)

  datatype Status = Ok | Error | NotFound | Input | PartDne | BadName

  /** Getting hold of the device, which every call does anew. */
  datatype Open = Opened | NoDevice | OpenFailed {
    function Status(): Status { if NoDevice? then NotFound else if OpenFailed? then Error else Ok }
  }

  predicate Disjoint(p: Partition, q: Partition) {
    p.end < q.start || q.end < p.start
  }

  predicate WellFormed(d: Disk) {
    && (forall n :: n in d.parts ==> d.parts[n].start <= d.parts[n].end < |d.sectors|)
    && (forall m, n :: m in d.parts && n in d.parts && m != n ==> Disjoint(d.parts[m], d.parts[n]))
  }

  // ---- Names ----------------------------------------------------------------------------

  /** The character at position `i` of a C string. */
  function CharAt(s: string, i: nat): char {
    if i < |s| then s[i] else '\0'
  }

  /** Whether `strncmp(a, b, n)` is 0, from position `i` on. */
  predicate SameUpTo(a: string, b: string, i: nat, n: nat)
    decreases n - i
  {
    i >= n || (CharAt(a, i) == CharAt(b, i) && (CharAt(a, i) == '\0' || SameUpTo(a, b, i + 1, n)))
  }

  /** `nvmeCheckNameSafety`. */
  predicate SafeName(name: string) {
    SameUpTo(name, "AESD", 0, 4)
  }

  /** The check accepts exactly the names that start with AESD. */
  lemma SafeNameIsPrefix(p: Partition)
    ensures SafeName(p.name) <==> p.Prefixed()
  {
  }

  function Digits(n: nat): string {
    (if n < 10 then "" else Digits(n / 10)) + [(n % 10 + 48) as char]
  }

  /** The name given to a new partition, or None if it does not fit in 16 bytes. */
  function NewName(num: nat): Option<string> {
    var name := "AESD Part " + Digits(num);
    if |name| < 16 then Some(name) else None
  }

  lemma NewNameIsPrefixed(num: nat)
    requires NewName(num).Some?
    ensures "AESD" <= NewName(num).value
  {
  }

  /** The number a string of digits stands for. */
  function Number(s: string): int {
    if |s| == 0 then 0 else 10 * Number(s[..|s| - 1]) + (s[|s| - 1] as int - 48)
  }

  function Pow10(k: nat): nat {
    if k == 0 then 1 else 10 * Pow10(k - 1)
  }

  /** The digits of a number stand for it, and there are as few of them as possible. */
  lemma {:induction false} DigitsRoundTrip(n: nat)
    ensures Number(Digits(n)) == n && |Digits(n)| >= 1
    ensures n < Pow10(|Digits(n)|) && (|Digits(n)| > 1 ==> n >= Pow10(|Digits(n)| - 1))
  {
    var last := (n % 10 + 48) as char;
    if n >= 10 {
      DigitsRoundTrip(n / 10);
      assert Digits(n) == Digits(n / 10) + [last] && Digits(n)[..|Digits(n)| - 1] == Digits(n / 10);
    } else {
      assert Digits(n) == [last];
      assert Pow10(1) == 10;
    }
  }

  lemma {:induction false} Pow10Monotone(i: nat, j: nat)
    requires i <= j
    ensures Pow10(i) <= Pow10(j)
  {
    if i < j { Pow10Monotone(i, j - 1); }
  }

  /** Partition numbers of up to five digits get a name, and no two the same. */
  lemma NewNameExact(m: nat, n: nat)
    ensures NewName(n).Some? <==> n < 100000
    ensures NewName(m).Some? && NewName(m) == NewName(n) ==> m == n
  {
    DigitsRoundTrip(m);
    DigitsRoundTrip(n);
    var k := |Digits(n)|;
    assert Pow10(5) == 100000;
    if k <= 5 {
      Pow10Monotone(k, 5);
    } else {
      Pow10Monotone(5, k - 1);
    }
    if NewName(m).Some? && NewName(m) == NewName(n) {
      assert NewName(m).value[10..] == Digits(m) && NewName(n).value[10..] == Digits(n);
    }
  }

  // ---- What is protected ----------------------------------------------------------------

  /** Partition `n` is there and does not carry the prefix. */
  predicate Foreign(d: Disk, n: int) {
    n in d.parts && !d.parts[n].Prefixed()
  }

  /** Every partition without the prefix keeps its name, its geometry and its contents, and no such
      partition appears. */
  predicate Preserves(d: Disk, d': Disk) {
    && |d'.sectors| == |d.sectors|
    && (forall n :: n in d'.parts && Foreign(d', n) ==> Foreign(d, n) && d.parts[n] == d'.parts[n])
    && forall n :: n in d.parts && Foreign(d, n) ==>
         && Foreign(d', n) && d'.parts[n] == d.parts[n]
         && forall x :: 0 <= x < |d.sectors| && d.parts[n].Covers(x) ==> d'.sectors[x] == d.sectors[x]
  }

  lemma PreservesTransitive(a: Disk, b: Disk, c: Disk)
    requires Preserves(a, b) && Preserves(b, c)
    ensures Preserves(a, c)
  {
  }

  /** What is preserved on the way from `a` to both `b` and `c` is preserved between them. */
  lemma PreservesBetween(a: Disk, b: Disk, c: Disk)
    requires Preserves(a, b) && Preserves(a, c)
    ensures Preserves(b, c)
  {
  }

  /** Writing only inside one prefixed partition preserves the others. */
  lemma InsideSafePartition(d: Disk, d': Disk, n: int)
    requires WellFormed(d) && n in d.parts && d.parts[n].Prefixed()
    requires d'.parts == d.parts && |d'.sectors| == |d.sectors|
    requires forall x :: 0 <= x < |d.sectors| && !d.parts[n].Covers(x) ==> d'.sectors[x] == d.sectors[x]
    ensures Preserves(d, d') && WellFormed(d')
  {
  }

  // ---- Ranges ---------------------------------------------------------------------------

  /** A range of sectors, both ends included, each a `uint32_t`. */
  datatype Range = Range(start: nat, end: nat)

  /** The four bounds tests of `nvmeCheckLbaRangeInPart`. */
  predicate InBounds(p: Partition, r: Range) {
    var size := ToUint32(r.end - r.start);
    && !(size > p.Length())
    && !(r.start + p.start > p.end)
    && !(r.end + p.start > p.end)
    && !(ToUint32(r.end - r.start) > p.Length())
  }

  /** Relative to absolute, in 32-bit arithmetic. */
  function Translate(p: Partition, r: Range): Range {
    Range(ToUint32(r.start + p.start), ToUint32(r.end + p.start))
  }

  predicate Is32(r: Range) {
    r.start < TWO32 && r.end < TWO32
  }

  /** For an ordered range the tests accept exactly when its end lies below the length. */
  lemma GateExact(p: Partition, r: Range)
    requires p.start <= p.end && Is32(r) && r.start <= r.end
    ensures InBounds(p, r) <==> r.end < p.Length()
  {
  }

  /** The translated range lies in the partition and has the length asked for. */
  predicate Confined(p: Partition, r: Range, t: Range) {
    p.start <= t.start && t.end <= p.end && t.end - t.start == r.end - r.start
  }

  /** The translation is confined exactly when the range passes the gate and its absolute end fits
      in 32 bits. */
  lemma ConfinedIff(p: Partition, r: Range)
    requires p.start <= p.end && Is32(r) && r.start <= r.end
    ensures Confined(p, r, Translate(p, r)) <==> InBounds(p, r) && p.start + r.end < TWO32
  {
  }

  // ---- The drive ------------------------------------------------------------------------

  /** What libparted answers when a partition is added: where it put it, whether the new table
      reached the device, and whether the whole call reported success. */
  datatype Placement = Placement(num: nat, start: nat, end: nat, written: bool, ok: bool)

  /** libparted only ever places a partition in free space on the device. */
  predicate Placeable(d: Disk, at: Placement) {
    && at.num !in d.parts && at.start <= at.end < |d.sectors|
    && forall n :: n in d.parts ==> at.end < d.parts[n].start || d.parts[n].end < at.start
  }

  /** The sectors after the perf engine has worked on a range: it may write what it likes, but only
      inside the range. */
  function EngineWrites(sectors: seq<Sector>, r: Range, writes: map<int, Sector>): (after: seq<Sector>)
    ensures |after| == |sectors|
    ensures forall x :: 0 <= x < |sectors| ==>
              after[x] == if r.start <= x <= r.end && x in writes then writes[x] else sectors[x]
  {
    seq(|sectors|, x requires 0 <= x < |sectors| =>
      if r.start <= x <= r.end && x in writes then writes[x] else sectors[x])
  }

  /** The calls of one seq_write or rand_write: the device at each of the four checks, and what
      the engine writes. */
  datatype PerfEnv = PerfEnv(nameOpen: Open, rangeOpen: Open, startOpen: Open, endOpen: Open, writes: map<int, Sector>)

  // ---- What a call leaves behind --------------------------------------------------------

  lemma Member<T>(s: set<T>) returns (x: T)
    requires |s| > 0
    ensures x in s
  {
    x :| x in s;
  }

  lemma {:induction false} LargestExists(s: set<int>)
    requires |s| > 0
    ensures exists m :: m in s && forall n :: n in s ==> n <= m
    decreases |s|
  {
    var x := Member(s);
    var rest := s - {x};
    assert forall n :: n in s ==> n in rest || n == x;
    if |rest| == 0 {
      assert x in s && forall n :: n in s ==> n <= x;
    } else {
      LargestExists(rest);
      var m :| m in rest && forall n :: n in rest ==> n <= m;
      if m < x {
        assert x in s && forall n :: n in s ==> n <= x;
      } else {
        assert m in s && forall n :: n in s ==> n <= m;
      }
    }
  }

  /** The end of the partition with the largest number. */
  function LastEnd(parts: map<int, Partition>): nat
    requires |parts| > 0
  {
    LargestExists(parts.Keys);
    var last :| last in parts.Keys && forall n :: n in parts.Keys ==> n <= last;
    parts[last].end
  }

  lemma LastEndIs(parts: map<int, Partition>, n: int)
    requires n in parts && forall m :: m in parts ==> m <= n
    ensures |parts| > 0 && LastEnd(parts) == parts[n].end
  {
    assert parts.Keys != {};
    LargestExists(parts.Keys);
  }

  function AfterCreate(d: Disk, size: nat, open: Open, at: Placement): Disk {
    if && open == Opened && |d.parts| > 0 && LastEnd(d.parts) + size <= |d.sectors| - 1
       && Placeable(d, at) && NewName(at.num).Some? && at.written
    then d.(parts := d.parts[at.num as int := Partition(NewName(at.num).value, at.start, at.end)])
    else d
  }

  function AfterDelete(d: Disk, n: int, done: bool): Disk {
    if done && n in d.parts && d.parts[n].Prefixed() then d.(parts := d.parts - {n}) else d
  }

  /** Whatever the sector asked for, the partition's first sector is the one written. */
  function AfterSectorWrite(d: Disk, n: int, data: Sector): Disk
    requires WellFormed(d)
  {
    if n in d.parts && d.parts[n].Prefixed() then d.(sectors := d.sectors[d.parts[n].start := data]) else d
  }

  function AfterPerf(d: Disk, job: Option<Range>, writes: map<int, Sector>): Disk {
    if job.Some? then d.(sectors := EngineWrites(d.sectors, job.value, writes)) else d
  }

  /** The range handed to the engine, in terms of what the command was given. */
  function PerfJob(d: Disk, partArg: int, startArg: int, endArg: int, duration: int, env: PerfEnv): Option<Range> {
    var n, r := partArg % 256, Range(ToUint32(startArg), ToUint32(endArg));
    if && n in d.parts && d.parts[n].Prefixed() && r.start <= r.end && duration >= 0
       && env.nameOpen == Opened && env.startOpen == Opened && env.endOpen == Opened
       && (env.rangeOpen == NoDevice || (env.rangeOpen == Opened && r.end < d.parts[n].Length()))
    then Some(Translate(d.parts[n], r)) else None
  }

  lemma CreatePreserves(d: Disk, size: nat, open: Open, at: Placement)
    requires WellFormed(d)
    ensures Preserves(d, AfterCreate(d, size, open, at)) && WellFormed(AfterCreate(d, size, open, at))
  {
    if NewName(at.num).Some? { NewNameIsPrefixed(at.num); }
  }

  lemma DeletePreserves(d: Disk, n: int, done: bool)
    requires WellFormed(d)
    ensures Preserves(d, AfterDelete(d, n, done)) && WellFormed(AfterDelete(d, n, done))
  {
  }

  lemma SectorWritePreserves(d: Disk, n: int, data: Sector)
    requires WellFormed(d)
    ensures Preserves(d, AfterSectorWrite(d, n, data)) && WellFormed(AfterSectorWrite(d, n, data))
  {
  }

  /** The range meets no partition without the prefix. */
  predicate Avoids(d: Disk, r: Range) {
    forall n, x :: n in d.parts && Foreign(d, n) && 0 <= x < |d.sectors| && d.parts[n].Covers(x) ==>
      !(r.start <= x <= r.end)
  }

  /** One sector a harmful range can be made to change. */
  lemma HarmfulWrite(d: Disk, r: Range) returns (n: int, x: int)
    requires !Avoids(d, r)
    ensures Foreign(d, n) && 0 <= x < |d.sectors| && d.parts[n].Covers(x)
    ensures AfterPerf(d, Some(r), map[x := d.sectors[x] + "!"]).sectors[x] != d.sectors[x]
  {
    n, x :| n in d.parts && Foreign(d, n) && 0 <= x < |d.sectors| && d.parts[n].Covers(x) && r.start <= x <= r.end;
    assert |d.sectors[x] + "!"| == |d.sectors[x]| + 1;
  }

  /** The engine cannot harm a partition without the prefix, whatever it writes, if and only if its
      range meets none of them. */
  lemma EngineHarmlessIff(d: Disk, r: Range)
    ensures (forall writes: map<int, Sector> :: Preserves(d, AfterPerf(d, Some(r), writes))) <==> Avoids(d, r)
  {
    if !Avoids(d, r) {
      var n, x := HarmfulWrite(d, r);
      assert !Preserves(d, AfterPerf(d, Some(r), map[x := d.sectors[x] + "!"]));
    }
  }

  class Drive {
    var parts: map<int, Partition>
    var sectors: seq<Sector>

    constructor (d: Disk)
      ensures Contents() == d
    {
      parts, sectors := d.parts, d.sectors;
    }

    function Contents(): Disk
      reads this
    {
      Disk(parts, sectors)
    }

    /** `nvmeCreatePartition`. */
    method CreatePartition(size: nat, open: Open, at: Placement) returns (status: Status)
      requires WellFormed(Contents())
      modifies this`parts
      ensures status == if open != Opened then open.Status()
                        else if |old(parts)| == 0 then Error
                        else if LastEnd(old(parts)) + size > |sectors| - 1 then Input
                        else if Placeable(old(Contents()), at) && NewName(at.num).Some? && at.ok then Ok else Error
      ensures Contents() == AfterCreate(old(Contents()), size, open, at)
      ensures status == Ok && at.written ==>
                parts == old(parts)[at.num as int := Partition("AESD Part " + Digits(at.num), at.start, at.end)]
      ensures parts != old(parts) ==> open == Opened && at.written && Placeable(old(Contents()), at)
      ensures at.num !in old(parts) ==> parts - {at.num as int} == old(parts)
      ensures WellFormed(Contents()) && Preserves(old(Contents()), Contents())
    {
      CreatePreserves(Contents(), size, open, at);
      if open != Opened {
        return open.Status();
      }
      if |parts| == 0 {
        return Error;
      }
      if LastEnd(parts) + size > |sectors| - 1 {
        return Input;
      }
      if !Placeable(Contents(), at) {
        return Error;
      }
      var name := NewName(at.num);
      if name.None? {
        return Error;
      }
      if at.written {
        parts := parts[at.num as int := Partition(name.value, at.start, at.end)];
      }
      return if at.ok then Ok else Error;
    }

    /** `nvmeDeletePartition`: `deleted` and `written` say whether libparted removed the partition
        and whether the table reached the device, `ok` what the commit reported. */
    method DeletePartition(n: int, open: Open, deleted: bool, written: bool, ok: bool) returns (status: Status)
      requires WellFormed(Contents())
      modifies this`parts
      ensures status == if open != Opened then open.Status()
                        else if n !in old(parts) then Input
                        else if !old(parts)[n].Prefixed() then BadName
                        else if ok then Ok else Error
      ensures Contents() == AfterDelete(old(Contents()), n, open == Opened && deleted && written)
      ensures parts == if open == Opened && deleted && written && n in old(parts) && old(parts)[n].Prefixed()
                       then old(parts) - {n} else old(parts)
      ensures WellFormed(Contents()) && Preserves(old(Contents()), Contents())
    {
      DeletePreserves(Contents(), n, open == Opened && deleted && written);
      if open != Opened {
        return open.Status();
      }
      if n !in parts {
        return Input;
      }
      SafeNameIsPrefix(parts[n]);
      if !SafeName(parts[n].name) {
        return BadName;
      }
      if deleted && written {
        parts := parts - {n};
      }
      return if ok then Ok else Error;
    }

    /** `nvmeWritePartitionSector`: always the first sector of the partition. A write that fails may
        leave `residue` there. */
    method WritePartitionSector(n: int, data: Sector, open: Open, writeOk: bool, residue: Sector, syncOk: bool)
      returns (status: Status)
      requires WellFormed(Contents())
      modifies this`sectors
      ensures status == if open != Opened then open.Status()
                        else if n !in parts then Input
                        else if !parts[n].Prefixed() then BadName
                        else if writeOk && syncOk then Ok else Error
      ensures Contents() == if open != Opened then old(Contents())
                            else AfterSectorWrite(old(Contents()), n, if writeOk then data else residue)
      ensures sectors == if open == Opened && n in parts && parts[n].Prefixed()
                         then old(sectors)[parts[n].start := if writeOk then data else residue] else old(sectors)
      ensures WellFormed(Contents()) && Preserves(old(Contents()), Contents())
    {
      SectorWritePreserves(Contents(), n, if writeOk then data else residue);
      if open != Opened {
        return open.Status();
      }
      if n !in parts {
        return Input;
      }
      SafeNameIsPrefix(parts[n]);
      if !SafeName(parts[n].name) {
        return BadName;
      }
      sectors := sectors[parts[n].start := if writeOk then data else residue];
      return if writeOk && syncOk then Ok else Error;
    }

    /** `nvmeCheckNameSafetyPartNumber`. */
    method CheckNameSafetyPartNumber(n: int, open: Open) returns (status: Status)
      ensures status == if open != Opened then open.Status() else if n !in parts then PartDne
                        else if parts[n].Prefixed() then Ok else BadName
    {
      if open != Opened {
        return open.Status();
      }
      if n !in parts {
        return PartDne;
      }
      SafeNameIsPrefix(parts[n]);
      return if SafeName(parts[n].name) then Ok else BadName;
    }

    /** `nvmeCheckLbaRangeInPart`. */
    method CheckLbaRangeInPart(n: int, r: Range, open: Open) returns (status: Status)
      requires WellFormed(Contents()) && Is32(r) && r.start <= r.end
      ensures status == if open != Opened then open.Status() else if n !in parts then PartDne
                        else if r.end < parts[n].Length() then Ok else Error
    {
      if open != Opened {
        return open.Status();
      }
      if n !in parts {
        return PartDne;
      }
      GateExact(parts[n], r);
      return if InBounds(parts[n], r) then Ok else Error;
    }

    /** `nvmeGetStartLbaInPart` and `nvmeGetEndLbaInPart`. */
    method GetLbaInPart(n: int, open: Open, start: bool) returns (status: Status, lba: nat)
      ensures status == if open != Opened then open.Status() else if n !in parts then PartDne else Ok
      ensures status == Ok ==> lba == if start then parts[n].start else parts[n].end
    {
      if open != Opened {
        return open.Status(), 0;
      }
      if n !in parts {
        return PartDne, 0;
      }
      return Ok, if start then parts[n].start else parts[n].end;
    }

    /** The seq_write and rand_write commands, from their parsed arguments. Only an Error from the
        range check stops the command. The range the engine was handed, if it was started. */
    method PerfWrite(partArg: int, startArg: int, endArg: int, duration: int, env: PerfEnv) returns (job: Option<Range>)
      requires WellFormed(Contents())
      modifies this`sectors
      ensures job == PerfJob(old(Contents()), partArg, startArg, endArg, duration, env)
      ensures Contents() == AfterPerf(old(Contents()), job, env.writes)
      ensures WellFormed(Contents()) && |sectors| == |old(sectors)|
      ensures forall x :: 0 <= x < |sectors| ==>
                sectors[x] == if job.Some? && job.value.start <= x <= job.value.end && x in env.writes
                              then env.writes[x] else old(sectors)[x]
      ensures (job.Some? ==> Avoids(old(Contents()), job.value)) ==> Preserves(old(Contents()), Contents())
    {
      var n := partArg % 256;
      var r := Range(ToUint32(startArg), ToUint32(endArg));
      var rc := CheckNameSafetyPartNumber(n, env.nameOpen);
      if rc != Ok {
        return None;
      }
      if r.start > r.end || duration < 0 {
        return None;
      }
      rc := CheckLbaRangeInPart(n, r, env.rangeOpen);
      if rc == Error {
        return None;
      }
      var start, end;
      rc, start := GetLbaInPart(n, env.startOpen, true);
      if rc != Ok {
        return None;
      }
      rc, end := GetLbaInPart(n, env.endOpen, false);
      if rc != Ok {
        return None;
      }
      r := Range(ToUint32(r.start + start), ToUint32(r.end + start));
      sectors := EngineWrites(sectors, r, env.writes);
      return Some(r);
    }
  }

  /** A job that starts is confined to the partition named if and only if the device was there for
      the range check, or the range would have passed it, and the absolute end fits in 32 bits. */
  lemma PerfConfinedIff(d: Disk, partArg: int, startArg: int, endArg: int, duration: int, env: PerfEnv)
    requires WellFormed(d) && PerfJob(d, partArg, startArg, endArg, duration, env).Some?
    ensures partArg % 256 in d.parts
    ensures var p, r := d.parts[partArg % 256], Range(ToUint32(startArg), ToUint32(endArg));
            Confined(p, r, PerfJob(d, partArg, startArg, endArg, duration, env).value)
            <==> (env.rangeOpen == Opened || r.end < p.Length()) && p.start + r.end < TWO32
  {
  }

  /** When a perf command starts a job on a device of at most 2^32 sectors that stays present, and on
      which range: the arguments, cut to their C types, must name a prefixed partition and an ordered
      range of it. */
  lemma PerfStartsIff(d: Disk, partArg: int, startArg: int, endArg: int, duration: int, writes: map<int, Sector>)
    requires WellFormed(d) && |d.sectors| <= TWO32
    ensures var n, start, end := partArg % 256, startArg % TWO32, endArg % TWO32;
            var job := PerfJob(d, partArg, startArg, endArg, duration,
                               PerfEnv(Opened, Opened, Opened, Opened, writes));
            && (job.Some? <==>
                 && n in d.parts && "AESD" <= d.parts[n].name && duration >= 0
                 && start <= end < d.parts[n].Length())
            && (job.Some? ==> job.value == Range(d.parts[n].start + start, d.parts[n].start + end))
  {
  }

  /** Every check needs the device, except that the range check may miss it. */
  lemma PerfNeedsDevice(d: Disk, n: int, startArg: int, endArg: int, duration: int, env: PerfEnv)
    ensures PerfJob(d, n, startArg, endArg, duration, env).Some? ==>
              && env.nameOpen == env.startOpen == env.endOpen == Opened && env.rangeOpen != OpenFailed
    ensures env.nameOpen == env.startOpen == env.endOpen == Opened && env.rangeOpen == NoDevice ==>
              var start, end := ToUint32(startArg), ToUint32(endArg);
              PerfJob(d, n, startArg, endArg, duration, env).Some?
              <==> n % 256 in d.parts && d.parts[n % 256].Prefixed() && start <= end && duration >= 0
  {
  }

  /** A perf command preserves the partitions without the prefix, whatever the engine writes, if and
      only if it starts no job or the job's range meets none of them. */
  lemma PerfSafeIff(d: Disk, partArg: int, startArg: int, endArg: int, duration: int, env: PerfEnv)
    ensures var job := PerfJob(d, partArg, startArg, endArg, duration, env);
            (forall writes: map<int, Sector> :: Preserves(d, AfterPerf(d, job, writes)))
            <==> job.None? || Avoids(d, job.value)
  {
    var job := PerfJob(d, partArg, startArg, endArg, duration, env);
    if job.Some? {
      EngineHarmlessIff(d, job.value);
    }
  }

  /** A job confined to the prefixed partition it names meets no other; so a device whose sector
      numbers fit in 32 bits and a range check that found the device are enough. */
  lemma ConfinedAvoids(d: Disk, partArg: int, startArg: int, endArg: int, duration: int, env: PerfEnv)
    requires WellFormed(d) && |d.sectors| <= TWO32 && env.rangeOpen != NoDevice
    ensures var job := PerfJob(d, partArg, startArg, endArg, duration, env);
            job.Some? ==> Avoids(d, job.value)
  {
    if PerfJob(d, partArg, startArg, endArg, duration, env).Some? {
      PerfConfinedIff(d, partArg, startArg, endArg, duration, env);
      forall n | n in d.parts && Foreign(d, n) ensures Disjoint(d.parts[n], d.parts[partArg % 256]) {}
    }
  }

  /** If the device is missing for the range check only, the check is skipped and the engine can be
      sent into a neighbouring partition. */
  lemma SkippedCheckEscapes()
    ensures var d := Disk(map[1 := Partition("AESD Part 1", 0, 1), 2 := Partition("root", 2, 3)], ["a", "b", "c", "d"]);
            var env := PerfEnv(Opened, NoDevice, Opened, Opened, map[2 := "x"]);
            var job := PerfJob(d, 1, 2, 3, 0, env);
            WellFormed(d) && job == Some(Range(2, 3)) && !Preserves(d, AfterPerf(d, job, env.writes))
  {
    var d := Disk(map[1 := Partition("AESD Part 1", 0, 1), 2 := Partition("root", 2, 3)], ["a", "b", "c", "d"]);
    assert d.parts[2].Covers(2);
    assert "root"[0] != "AESD"[0];
    assert EngineWrites(d.sectors, Range(2, 3), map[2 := "x"])[2] == "x" != d.sectors[2];
  }

  /** On a larger device a partition that starts at sector 2^32 passes every check, and the 32-bit
      sum sends the engine to sector 0. */
  lemma WrappedRangeEscapes()
    ensures var d := Disk(map[1 := Partition("AESD Part 1", TWO32, TWO32 + 1), 2 := Partition("root", 0, 1)],
                          seq(TWO32 + 2, _ => "a"));
            var env := PerfEnv(Opened, Opened, Opened, Opened, map[0 := "x"]);
            var job := PerfJob(d, 1, 0, 1, 0, env);
            WellFormed(d) && job == Some(Range(0, 1)) && !Preserves(d, AfterPerf(d, job, env.writes))
  {
    var d := Disk(map[1 := Partition("AESD Part 1", TWO32, TWO32 + 1), 2 := Partition("root", 0, 1)],
                  seq(TWO32 + 2, _ => "a"));
    assert d.parts[2].Covers(0);
    assert "root"[0] != "AESD"[0];
    assert EngineWrites(d.sectors, Range(0, 1), map[0 := "x"])[0] == "x" != d.sectors[0];
  }

  // ---- Whole runs -----------------------------------------------------------------------

  /** A command from its parsed arguments, with the answers of the device. `queued` commands come
      from the command queue, which does not test for positive arguments. */
  datatype Command =
    | Mkpart(size: int, queued: bool, open: Open, at: Placement)
    | Rmpart(n: int, queued: bool, open: Open, deleted: bool, written: bool, ok: bool)
    | Write(n: int, data: Sector, open: Open, writeOk: bool, residue: Sector, syncOk: bool)
    | Perf(n: int, start: int, end: int, duration: int, env: PerfEnv)
    | ReadOnly

  function Effect(d: Disk, c: Command): Disk
    requires WellFormed(d)
  {
    match c
    case Mkpart(size, queued, open, at) =>
      if size > 0 || (queued && size == 0) then AfterCreate(d, size, open, at) else d
    case Rmpart(n, queued, open, deleted, written, ok) =>
      if queued || n > 0 then AfterDelete(d, n, open == Opened && deleted && written) else d
    case Write(n, data, open, writeOk, residue, syncOk) =>
      if open == Opened then AfterSectorWrite(d, n, if writeOk then data else residue) else d
    case Perf(n, start, end, duration, env) => AfterPerf(d, PerfJob(d, n, start, end, duration, env), env.writes)
    case ReadOnly => d
  }

  /** The range the engine is handed, if the command starts it. */
  function JobOf(d: Disk, c: Command): Option<Range> {
    if c.Perf? then PerfJob(d, c.n, c.start, c.end, c.duration, c.env) else None
  }

  /** The command starts no job, or one whose range meets no partition without the prefix. */
  predicate SafeCommand(d: Disk, c: Command) {
    JobOf(d, c).Some? ==> Avoids(d, JobOf(d, c).value)
  }

  lemma EffectWellFormed(d: Disk, c: Command)
    requires WellFormed(d)
    ensures WellFormed(Effect(d, c)) && |Effect(d, c).sectors| == |d.sectors|
  {
    if c.Mkpart? && c.size >= 0 {
      CreatePreserves(d, c.size, c.open, c.at);
    }
  }

  /** One command. */
  lemma EffectPreserves(d: Disk, c: Command)
    requires WellFormed(d) && SafeCommand(d, c)
    ensures Preserves(d, Effect(d, c))
  {
    match c {
      case Mkpart(size, queued, open, at) =>
        if size >= 0 { CreatePreserves(d, size, open, at); }
      case Rmpart(n, queued, open, deleted, written, ok) =>
        DeletePreserves(d, n, open == Opened && deleted && written);
      case Write(n, data, open, writeOk, residue, syncOk) =>
        SectorWritePreserves(d, n, if writeOk then data else residue);
      case Perf(n, start, end, duration, env) => PerfSafeIff(d, n, start, end, duration, env);
      case ReadOnly =>
    }
  }

  /** A run of commands. */
  ghost function Effects(d: Disk, commands: seq<Command>): (d': Disk)
    requires WellFormed(d)
    decreases |commands|
  {
    if |commands| == 0 then d else
    EffectWellFormed(d, commands[0]);
    Effects(Effect(d, commands[0]), commands[1..])
  }

  /** Every command is safe on the disk as it finds it. */
  ghost predicate SafeRun(d: Disk, commands: seq<Command>)
    requires WellFormed(d)
    decreases |commands|
  {
    |commands| > 0 ==>
      && SafeCommand(d, commands[0])
      && (EffectWellFormed(d, commands[0]); SafeRun(Effect(d, commands[0]), commands[1..]))
  }

  /** SAFE_MODE over whole runs: partitions without the AESD prefix keep name, geometry and contents,
      and every partition added carries the prefix. */
  lemma {:induction false} SafeOverRuns(d: Disk, commands: seq<Command>)
    requires WellFormed(d) && SafeRun(d, commands)
    ensures Preserves(d, Effects(d, commands))
    decreases |commands|
  {
    if |commands| > 0 {
      EffectPreserves(d, commands[0]);
      EffectWellFormed(d, commands[0]);
      SafeOverRuns(Effect(d, commands[0]), commands[1..]);
      PreservesTransitive(d, Effect(d, commands[0]), Effects(d, commands));
    }
  }

  /** The device did not vanish between the name check and the range check. */
  predicate Steady(c: Command) {
    c.Perf? ==> c.env.rangeOpen != NoDevice
  }

  /** On a device whose sector numbers fit in 32 bits, commands whose range check found the device are
      safe, whatever their arguments and order. */
  lemma {:induction false} SteadyRunsAreSafe(d: Disk, commands: seq<Command>)
    requires WellFormed(d) && |d.sectors| <= TWO32 && forall i :: 0 <= i < |commands| ==> Steady(commands[i])
    ensures SafeRun(d, commands)
    decreases |commands|
  {
    if |commands| > 0 {
      var c := commands[0];
      if c.Perf? {
        ConfinedAvoids(d, c.n, c.start, c.end, c.duration, c.env);
      }
      EffectWellFormed(d, c);
      SteadyRunsAreSafe(Effect(d, c), commands[1..]);
    }
  }

  // ---- What a run changes ---------------------------------------------------------------

  /** What the commands other than perf commands do to a disk: an mkpart adds the one partition
      libparted placed, an rmpart removes the one prefixed partition it names, and a write changes the
      first sector of the prefixed partition it names. */
  lemma EffectIs(d: Disk, c: Command)
    requires WellFormed(d)
    ensures c.ReadOnly? || (c.Mkpart? && (c.size < 0 || (c.size == 0 && !c.queued))) ==> Effect(d, c) == d
    ensures c.Mkpart? && (c.size > 0 || (c.queued && c.size == 0)) && c.open == Opened && c.at.written
            && |d.parts| > 0 && LastEnd(d.parts) + c.size < |d.sectors| && Placeable(d, c.at) && c.at.num < 100000 ==>
              Effect(d, c) == d.(parts := d.parts[c.at.num as int :=
                                            Partition("AESD Part " + Digits(c.at.num), c.at.start, c.at.end)])
    ensures c.Rmpart? && (c.queued || c.n > 0) && c.open == Opened && c.deleted && c.written
            && c.n in d.parts && "AESD" <= d.parts[c.n].name ==>
              Effect(d, c) == d.(parts := d.parts - {c.n})
    ensures c.Write? && c.open == Opened && c.n in d.parts && "AESD" <= d.parts[c.n].name ==>
              Effect(d, c) == d.(sectors := d.sectors[d.parts[c.n].start := if c.writeOk then c.data else c.residue])
  {
    if c.Mkpart? {
      NewNameExact(c.at.num, c.at.num);
    }
  }

  /** A command that can take partition `n` out of the table. */
  predicate Removes(c: Command, n: int) {
    c.Rmpart? && c.n == n && c.open == Opened && c.deleted && c.written && (c.queued || n > 0)
  }

  /** A command that can add partition `n` to the table. */
  predicate Adds(c: Command, n: int) {
    c.Mkpart? && c.at.num == n && c.open == Opened && c.at.written && c.size >= 0
  }

  /** A command that can change sector `x`. */
  predicate Touches(d: Disk, c: Command, x: int) {
    || (c.Write? && c.n in d.parts && d.parts[c.n].Prefixed() && d.parts[c.n].start == x)
    || (JobOf(d, c).Some? && JobOf(d, c).value.start <= x <= JobOf(d, c).value.end && x in c.env.writes)
  }

  lemma EffectChanges(d: Disk, c: Command, n: int)
    requires WellFormed(d)
    ensures n in d.parts && !Removes(c, n) ==> n in Effect(d, c).parts && Effect(d, c).parts[n] == d.parts[n]
    ensures n in d.parts && n !in Effect(d, c).parts ==> d.parts[n].Prefixed()
    ensures n !in d.parts && !Adds(c, n) ==> n !in Effect(d, c).parts
    ensures |Effect(d, c).sectors| == |d.sectors|
    ensures forall x :: 0 <= x < |d.sectors| && !Touches(d, c, x) ==> Effect(d, c).sectors[x] == d.sectors[x]
  {
  }

  /** Over every run, a partition keeps its number, name and geometry unless an rmpart names it. */
  lemma {:induction false} PartitionStays(d: Disk, commands: seq<Command>, n: int)
    requires WellFormed(d) && n in d.parts
    requires forall i :: 0 <= i < |commands| ==> !Removes(commands[i], n)
    ensures n in Effects(d, commands).parts && Effects(d, commands).parts[n] == d.parts[n]
    decreases |commands|
  {
    if |commands| > 0 {
      EffectWellFormed(d, commands[0]);
      EffectChanges(d, commands[0], n);
      PartitionStays(Effect(d, commands[0]), commands[1..], n);
    }
  }

  /** And no partition appears unless an mkpart was given its number. */
  lemma {:induction false} PartitionAbsent(d: Disk, commands: seq<Command>, n: int)
    requires WellFormed(d) && n !in d.parts
    requires forall i :: 0 <= i < |commands| ==> !Adds(commands[i], n)
    ensures n !in Effects(d, commands).parts
    decreases |commands|
  {
    if |commands| > 0 {
      EffectWellFormed(d, commands[0]);
      EffectChanges(d, commands[0], n);
      PartitionAbsent(Effect(d, commands[0]), commands[1..], n);
    }
  }

  /** No command of the run touches the sector, on the disk as it finds it. */
  ghost predicate Untouched(d: Disk, commands: seq<Command>, x: int)
    requires WellFormed(d)
    decreases |commands|
  {
    |commands| > 0 ==>
      && !Touches(d, commands[0], x)
      && (EffectWellFormed(d, commands[0]); Untouched(Effect(d, commands[0]), commands[1..], x))
  }

  /** A sector changes only by a write to the prefixed partition that starts there, or by the engine of
      a job whose range covers it. */
  lemma {:induction false} SectorStays(d: Disk, commands: seq<Command>, x: int)
    requires WellFormed(d) && 0 <= x < |d.sectors| && Untouched(d, commands, x)
    ensures |Effects(d, commands).sectors| == |d.sectors| && Effects(d, commands).sectors[x] == d.sectors[x]
    decreases |commands|
  {
    if |commands| > 0 {
      EffectWellFormed(d, commands[0]);
      EffectChanges(d, commands[0], 0);
      SectorStays(Effect(d, commands[0]), commands[1..], x);
    }
  }

  // ---- The condition on runs is exact ---------------------------------------------------

  /** The same command with another engine. */
  function Rewrite(c: Command, writes: map<int, Sector>): Command {
    if c.Perf? then c.(env := c.env.(writes := writes)) else c
  }

  function WithWrites(commands: seq<Command>, ws: seq<map<int, Sector>>): (cs: seq<Command>)
    requires |ws| == |commands|
    ensures |cs| == |commands|
  {
    if |commands| == 0 then [] else [Rewrite(commands[0], ws[0])] + WithWrites(commands[1..], ws[1..])
  }

  predicate SameLayout(d: Disk, d': Disk) {
    d.parts == d'.parts && |d.sectors| == |d'.sectors|
  }

  /** Neither the table nor the jobs depend on what is stored in the sectors. */
  lemma LayoutStep(d: Disk, d': Disk, c: Command, writes: map<int, Sector>)
    requires WellFormed(d) && WellFormed(d') && SameLayout(d, d')
    ensures SameLayout(Effect(d, c), Effect(d', Rewrite(c, writes)))
    ensures SafeCommand(d, c) <==> SafeCommand(d', Rewrite(c, writes))
  {
  }

  lemma {:induction false} LayoutRun(d: Disk, d': Disk, commands: seq<Command>, ws: seq<map<int, Sector>>)
    requires WellFormed(d) && WellFormed(d') && SameLayout(d, d') && |ws| == |commands|
    ensures SafeRun(d, commands) <==> SafeRun(d', WithWrites(commands, ws))
    decreases |commands|
  {
    if |commands| > 0 {
      var c, c' := commands[0], Rewrite(commands[0], ws[0]);
      LayoutStep(d, d', c, ws[0]);
      EffectWellFormed(d, c);
      EffectWellFormed(d', c');
      LayoutRun(Effect(d, c), Effect(d', c'), commands[1..], ws[1..]);
      assert WithWrites(commands, ws)[1..] == WithWrites(commands[1..], ws[1..]);
    }
  }

  /** An engine that writes nothing harms nothing. */
  lemma IdleEngine(d: Disk, c: Command)
    requires WellFormed(d)
    ensures Preserves(d, Effect(d, Rewrite(c, map[])))
  {
    if !c.Perf? {
      EffectPreserves(d, c);
    }
  }

  function Nothing(n: nat): (ws: seq<map<int, Sector>>)
    ensures |ws| == n
  {
    if n == 0 then [] else [map[]] + Nothing(n - 1)
  }

  lemma {:induction false} IdleEngines(d: Disk, commands: seq<Command>)
    requires WellFormed(d)
    ensures Preserves(d, Effects(d, WithWrites(commands, Nothing(|commands|))))
    decreases |commands|
  {
    if |commands| > 0 {
      var c := Rewrite(commands[0], map[]);
      IdleEngine(d, commands[0]);
      EffectWellFormed(d, c);
      IdleEngines(Effect(d, c), commands[1..]);
      var cs := WithWrites(commands, Nothing(|commands|));
      assert Nothing(|commands|)[1..] == Nothing(|commands| - 1);
      assert cs[0] == c && cs[1..] == WithWrites(commands[1..], Nothing(|commands| - 1));
      PreservesTransitive(d, Effect(d, c), Effects(d, cs));
    }
  }

  /** If some command is not safe where it stands, the engines can be chosen so that a partition
      without the prefix is damaged at the end of the run. */
  lemma {:induction false} HarmfulEngines(d: Disk, commands: seq<Command>) returns (ws: seq<map<int, Sector>>)
    requires WellFormed(d) && !SafeRun(d, commands)
    ensures |ws| == |commands| && !Preserves(d, Effects(d, WithWrites(commands, ws)))
    decreases |commands|
  {
    var c, later := commands[0], commands[1..];
    if !SafeCommand(d, c) {
      var n, x := HarmfulWrite(d, JobOf(d, c).value);
      var c' := Rewrite(c, map[x := d.sectors[x] + "!"]);
      ws := [map[x := d.sectors[x] + "!"]] + Nothing(|later|);
      EffectWellFormed(d, c');
      IdleEngines(Effect(d, c'), later);
      var cs := WithWrites(commands, ws);
      assert ws[1..] == Nothing(|later|);
      assert cs[0] == c' && cs[1..] == WithWrites(later, Nothing(|later|));
      assert Foreign(Effect(d, c'), n) && Effect(d, c').parts[n].Covers(x);
      assert Effects(d, cs).sectors[x] != d.sectors[x];
    } else {
      var c' := Rewrite(c, map[]);
      EffectWellFormed(d, c);
      EffectWellFormed(d, c');
      LayoutStep(d, d, c, map[]);
      LayoutRun(Effect(d, c), Effect(d, c'), later, Nothing(|later|));
      LayoutRun(Effect(d, c'), Effect(d, c'), later, Nothing(|later|));
      var ws' := HarmfulEngines(Effect(d, c'), later);
      ws := [map[]] + ws';
      var cs := WithWrites(commands, ws);
      assert ws[1..] == ws' && cs[0] == c' && cs[1..] == WithWrites(later, ws');
      IdleEngine(d, c);
      if Preserves(d, Effects(d, cs)) {
        PreservesBetween(d, Effect(d, c'), Effects(d, cs));
      }
    }
  }

  /** A run preserves the partitions without the prefix under every behaviour of its engines if and
      only if every command is safe on the disk as it finds it. */
  lemma SafeRunIff(d: Disk, commands: seq<Command>)
    requires WellFormed(d)
    ensures (forall ws: seq<map<int, Sector>> :: |ws| == |commands| ==>
               Preserves(d, Effects(d, WithWrites(commands, ws))))
       <==> SafeRun(d, commands)
  {
    if SafeRun(d, commands) {
      forall ws: seq<map<int, Sector>> | |ws| == |commands|
        ensures Preserves(d, Effects(d, WithWrites(commands, ws)))
      {
        LayoutRun(d, d, commands, ws);
        SafeOverRuns(d, WithWrites(commands, ws));
      }
    } else {
      var ws := HarmfulEngines(d, commands);
    }
  }

  // ---- The server -----------------------------------------------------------------------

  /** One command of `repsondingThread`. */
  method Perform(drive: Drive, c: Command)
    requires WellFormed(drive.Contents())
    modifies drive
    ensures drive.Contents() == Effect(old(drive.Contents()), c)
    ensures WellFormed(drive.Contents())
    ensures SafeCommand(old(drive.Contents()), c) ==> Preserves(old(drive.Contents()), drive.Contents())
  {
    match c {
      case Mkpart(size, queued, open, at) =>
        if size > 0 || (queued && size == 0) {
          var _ := drive.CreatePartition(size, open, at);
        }
      case Rmpart(n, queued, open, deleted, written, ok) =>
        if queued || n > 0 {
          var _ := drive.DeletePartition(n, open, deleted, written, ok);
        }
      case Write(n, data, open, writeOk, residue, syncOk) =>
        var _ := drive.WritePartitionSector(n, data, open, writeOk, residue, syncOk);
      case Perf(n, start, end, duration, env) =>
        var _ := drive.PerfWrite(n, start, end, duration, env);
      case ReadOnly =>
    }
  }

  /** The command loop of the server. */
  method Serve(drive: Drive, commands: seq<Command>)
    requires WellFormed(drive.Contents())
    modifies drive
    ensures WellFormed(drive.Contents())
    ensures drive.Contents() == Effects(old(drive.Contents()), commands)
    ensures SafeRun(old(drive.Contents()), commands) ==> Preserves(old(drive.Contents()), drive.Contents())
  {
    ghost var before := drive.Contents();
    for i := 0 to |commands|
      invariant WellFormed(drive.Contents())
      invariant Effects(drive.Contents(), commands[i..]) == Effects(before, commands)
    {
      assert commands[i..][1..] == commands[i + 1..];
      Perform(drive, commands[i]);
    }
    if SafeRun(before, commands) {
      SafeOverRuns(before, commands);
    }
  }
}
