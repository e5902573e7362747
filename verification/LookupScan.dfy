/** The lock-free linear scan of `find_deadlock_free`, interleaved word by word with the writes of `add`.

    A schedule says which side moves next: `true` is the adding thread, `false` the scanning one. The
    adding side works through a queue of chunks; growing the table is one step. */
module LookupScan {
  import opened Wrappers
  import opened CodeChunks

  datatype Writer =
    | Idle
    | Shifting(m: MethodCode, idx: nat, i: nat)   // slots above i are shifted, slot i is written next
    | Placed(m: MethodCode, idx: nat)             // the new entry is written, the count not yet raised

  datatype Reader =
    | AtTest(r: nat)                              // about to compare r with the count
    | AtLoad(r: nat)                              // about to read slot r
    | Done(result: Option<MethodCode>)
    | Wild                                        // has read a slot that was never written

  /** `mem` is the table array (None: never written) and `n` the entry count, the only words the scan reads.
      `base` is what the table held when the lock was last free. */
  datatype Table = Table(mem: seq<Option<MethodCode>>, n: nat, base: seq<MethodCode>,
                         writer: Writer, pending: seq<MethodCode>)

  datatype Sys = Sys(tab: Table, reader: Reader)

  function WriterStep(s: Table): Table {
    match s.writer
    case Idle =>
      if s.pending == [] then s else
        var m := s.pending[0];
        var mem := if s.n >= |s.mem| then s.mem + seq(|s.mem|, _ => None) else s.mem;
        s.(mem := mem, writer := Shifting(m, InsertionIndex(s.base, m.codeAddr), s.n), pending := s.pending[1..])
    case Shifting(m, idx, i) =>
      if i >= |s.mem| then s
      else if i > idx then s.(mem := s.mem[i := s.mem[i - 1]], writer := Shifting(m, idx, i - 1))
      else s.(mem := s.mem[i := Some(m)], writer := Placed(m, idx))
    case Placed(m, _) => s.(n := s.n + 1, base := Inserted(s.base, m), writer := Idle)
  }

  /** The test of the scan: the upper bound is closed. */
  predicate Matches(c: MethodCode, a: nat) { c.codeAddr <= a <= c.End() }

  function ReaderStep(s: Table, reader: Reader, a: nat): Reader {
    match reader
    case AtTest(r) => if r < s.n then AtLoad(r) else Done(None)
    case AtLoad(r) =>
      if r >= |s.mem| || s.mem[r].None? then Wild
      else if Matches(s.mem[r].value, a) then Done(s.mem[r])
      else AtTest(r + 1)
    case _ => reader
  }

  function Step(s: Sys, a: nat, writes: bool): Sys {
    if writes then s.(tab := WriterStep(s.tab)) else s.(reader := ReaderStep(s.tab, s.reader, a))
  }

  function Exec(s: Sys, a: nat, schedule: seq<bool>): Sys
    decreases |schedule|
  {
    if schedule == [] then s else Exec(Step(s, a, schedule[0]), a, schedule[1..])
  }

  // ---------------------------------------------------------------------------------------------
  // What the writer keeps
  // ---------------------------------------------------------------------------------------------

  function InFlight(w: Writer): set<MethodCode> {
    if w.Idle? then {} else {w.m}
  }

  ghost function Chunks(s: Table): set<MethodCode> {
    (set c | c in s.base) + InFlight(s.writer) + (set c | c in s.pending)
  }

  ghost predicate Separate(U: set<MethodCode>) {
    && (forall c :: c in U ==> c.size > 0)
    && (forall c, d :: c in U && d in U && c != d ==> c.Apart(d))
  }

  ghost predicate Distinct(s: Table) {
    && (forall c :: c in s.pending ==> c !in s.base && c !in InFlight(s.writer))
    && (forall c :: c in InFlight(s.writer) ==> c !in s.base)
    && (forall i, j :: 0 <= i < j < |s.pending| ==> s.pending[i] != s.pending[j])
  }

  ghost predicate MemoryOk(s: Table) {
    s.n == |s.base| && 0 < |s.mem| &&
    match s.writer
    case Idle => s.n <= |s.mem| && forall j :: 0 <= j < s.n ==> s.mem[j] == Some(s.base[j])
    case Shifting(m, idx, i) =>
      && idx == InsertionIndex(s.base, m.codeAddr) <= i <= s.n < |s.mem|
      && (forall j :: 0 <= j < s.n && j <= i ==> s.mem[j] == Some(s.base[j]))
      && (forall j :: i < j <= s.n ==> s.mem[j] == Some(s.base[j - 1]))
    case Placed(m, idx) =>
      && idx == InsertionIndex(s.base, m.codeAddr) <= s.n < |s.mem|
      && forall j :: 0 <= j <= s.n ==> s.mem[j] == Some(Inserted(s.base, m)[j])
  }

  ghost predicate Inv(s: Table) {
    Ordered(s.base) && Separate(Chunks(s)) && Distinct(s) && MemoryOk(s)
  }

  lemma WriterKeepsChunks(s: Table)
    requires Distinct(s)
    ensures Distinct(WriterStep(s)) && Chunks(WriterStep(s)) == Chunks(s)
  {
    match s.writer
    case Idle =>
      if s.pending != [] {
        assert s.pending == [s.pending[0]] + s.pending[1..];
      }
    case Shifting(_, _, _) =>
    case Placed(m, _) => InsertedMembers(s.base, m);
  }

  lemma WriterKeepsMemory(s: Table)
    requires MemoryOk(s)
    ensures MemoryOk(WriterStep(s))
  {
    var t := WriterStep(s);
    if s.writer.Shifting? && s.writer.i == s.writer.idx {
      forall j | 0 <= j <= s.n ensures t.mem[j] == Some(Inserted(s.base, s.writer.m)[j]) {}
    }
  }

  lemma PlacedKeepsOrder(s: Table)
    requires Ordered(s.base) && Separate(Chunks(s)) && Distinct(s) && s.writer.Placed?
    ensures Ordered(Inserted(s.base, s.writer.m))
  {
    forall j | 0 <= j < |s.base| ensures s.base[j].Apart(s.writer.m) {
      assert s.base[j] in Chunks(s) && s.writer.m in Chunks(s) && s.writer.m in InFlight(s.writer);
    }
    assert s.writer.m in Chunks(s);
    InsertedOrdered(s.base, s.writer.m);
  }

  lemma WriterKeepsInv(s: Table)
    requires Inv(s)
    ensures Inv(WriterStep(s)) && Chunks(WriterStep(s)) == Chunks(s)
  {
    WriterKeepsChunks(s);
    WriterKeepsMemory(s);
    if s.writer.Placed? {
      PlacedKeepsOrder(s);
      assert WriterStep(s).base == Inserted(s.base, s.writer.m);
    } else {
      assert WriterStep(s).base == s.base;
    }
  }

  // ---------------------------------------------------------------------------------------------
  // Soundness of every run: only registered chunks are read, and the answer matches the address
  // ---------------------------------------------------------------------------------------------

  ghost predicate ReaderSound(s: Sys, a: nat) {
    match s.reader
    case AtTest(r) => r <= s.tab.n
    case AtLoad(r) => r < s.tab.n
    case Done(res) => res.Some? ==> res.value in Chunks(s.tab) && Matches(res.value, a)
    case Wild => false
  }

  lemma VisibleSlot(s: Table, r: nat)
    requires MemoryOk(s) && r < s.n
    ensures r < |s.mem| && s.mem[r].Some? && s.mem[r].value in Chunks(s)
  {
    match s.writer
    case Idle =>
    case Shifting(_, _, i) =>
      assert s.mem[r] == Some(if r <= i then s.base[r] else s.base[r - 1]);
    case Placed(m, _) =>
      InsertedMembers(s.base, m);
      assert s.mem[r] == Some(Inserted(s.base, m)[r]);
  }

  lemma StepIsSound(s: Sys, a: nat, writes: bool)
    requires Inv(s.tab) && ReaderSound(s, a)
    ensures var t := Step(s, a, writes);
            Inv(t.tab) && Chunks(t.tab) == Chunks(s.tab) && ReaderSound(t, a)
  {
    if writes {
      WriterKeepsInv(s.tab);
    } else if s.reader.AtLoad? {
      VisibleSlot(s.tab, s.reader.r);
    }
  }

  /** No schedule makes the scan read an unwritten slot, and whatever it returns is a registered chunk
      whose closed range holds the address. */
  lemma {:induction false} EveryScanIsSound(s: Sys, a: nat, schedule: seq<bool>)
    requires Inv(s.tab) && ReaderSound(s, a)
    ensures var t := Exec(s, a, schedule);
            Inv(t.tab) && Chunks(t.tab) == Chunks(s.tab) && ReaderSound(t, a)
    decreases |schedule|
  {
    if schedule != [] {
      StepIsSound(s, a, schedule[0]);
      EveryScanIsSound(Step(s, a, schedule[0]), a, schedule[1..]);
    }
  }

  // ---------------------------------------------------------------------------------------------
  // Every scan ends
  // ---------------------------------------------------------------------------------------------

  /** The moves of the scanning thread in a schedule. */
  function ReaderMoves(schedule: seq<bool>): nat {
    if schedule == [] then 0 else (if schedule[0] then 0 else 1) + ReaderMoves(schedule[1..])
  }

  /** All chunks there will ever be: in the table, in flight and queued. */
  function Total(s: Table): nat {
    |s.base| + (if s.writer.Idle? then 0 else 1) + |s.pending|
  }

  /** The moves the scan still has to make at most. */
  function Remaining(s: Sys): nat {
    var n := Total(s.tab);
    match s.reader
    case AtTest(r) => if r <= n then 2 * (n - r) + 1 else 0
    case AtLoad(r) => if r < n then 2 * (n - r) else 0
    case _ => 0
  }

  lemma StepProgresses(s: Sys, a: nat, writes: bool)
    requires Inv(s.tab) && ReaderSound(s, a)
    ensures var t := Step(s, a, writes);
            && Remaining(t) <= Remaining(s)
            && (!writes && !s.reader.Done? ==> Remaining(t) < Remaining(s))
  {
  }

  lemma {:induction false} DoneStays(s: Sys, a: nat, schedule: seq<bool>)
    requires s.reader.Done?
    ensures Exec(s, a, schedule).reader == s.reader
    decreases |schedule|
  {
    if schedule != [] {
      DoneStays(Step(s, a, schedule[0]), a, schedule[1..]);
    }
  }

  /** However the table grows meanwhile, a scan ends after at most twice as many moves as there are chunks, plus one. */
  lemma {:induction false} EveryScanEnds(s: Sys, a: nat, schedule: seq<bool>)
    requires Inv(s.tab) && ReaderSound(s, a) && ReaderMoves(schedule) >= Remaining(s)
    ensures Exec(s, a, schedule).reader.Done?
    decreases |schedule|
  {
    EveryScanIsSound(s, a, schedule);
    if s.reader.Done? {
      DoneStays(s, a, schedule);
    } else if schedule != [] {
      StepIsSound(s, a, schedule[0]);
      StepProgresses(s, a, schedule[0]);
      EveryScanEnds(Step(s, a, schedule[0]), a, schedule[1..]);
    }
  }

  // ---------------------------------------------------------------------------------------------
  // Never losing an entry
  // ---------------------------------------------------------------------------------------------

  /** The rightmost slot that holds entry k of `base`. */
  ghost function LastSlot(w: Writer, k: nat): nat {
    match w
    case Idle => k
    case Shifting(_, _, i) => if k < i then k else k + 1
    case Placed(_, idx) => if k < idx then k else k + 1
  }

  /** The next insertion, in progress or at the head of the queue, goes to the end of the table, or there is none. */
  ghost predicate NextGoesLast(s: Table) {
    if s.writer.Idle? then s.pending == [] || InsertionIndex(s.base, s.pending[0].codeAddr) == |s.base|
    else s.writer.idx == |s.base|
  }

  /** Entry k is not the last one, or it stays where it is during the next insertion. */
  ghost predicate Kept(s: Table, k: nat)
    requires k < |s.base|
  {
    k + 1 < |s.base| || NextGoesLast(s)
  }

  ghost predicate NoChunkEndsAt(s: Table, a: nat) {
    forall c :: c in Chunks(s) ==> c.End() != a
  }

  /** The scan has not passed entry k, or has returned it. */
  ghost predicate Ahead(s: Sys, k: nat)
    requires k < |s.tab.base|
  {
    match s.reader
    case AtTest(r) => r <= LastSlot(s.tab.writer, k)
    case AtLoad(r) => r <= LastSlot(s.tab.writer, k) && r < s.tab.n
    case Done(res) => res == Some(s.tab.base[k])
    case Wild => false
  }

  /** The position of entry k after a writer step. */
  ghost function NextIndex(s: Table, k: nat): nat {
    if s.writer.Placed? && s.writer.idx <= k then k + 1 else k
  }

  lemma WriterKeepsEntry(s: Table, k: nat)
    requires MemoryOk(s) && k < |s.base| && Kept(s, k)
    ensures var t, k' := WriterStep(s), NextIndex(s, k);
            && s.n <= t.n && k' < |t.base| && t.base[k'] == s.base[k]
            && Kept(t, k') && LastSlot(s.writer, k) <= LastSlot(t.writer, k')
  {
  }

  lemma SlotHoldsEntry(s: Table, k: nat)
    requires MemoryOk(s) && k < |s.base|
    ensures LastSlot(s.writer, k) < |s.mem| && s.mem[LastSlot(s.writer, k)] == Some(s.base[k])
  {
    if s.writer.Placed? {
      assert s.mem[LastSlot(s.writer, k)] == Some(Inserted(s.base, s.writer.m)[LastSlot(s.writer, k)]);
    }
  }

  lemma OnlyMatch(s: Table, a: nat, k: nat, c: MethodCode)
    requires Separate(Chunks(s)) && k < |s.base| && s.base[k].Contains(a) && NoChunkEndsAt(s, a)
    requires c in Chunks(s)
    ensures Matches(c, a) <==> c == s.base[k]
  {
    assert s.base[k] in Chunks(s);
    assert c == s.base[k] || c.Apart(s.base[k]);
  }

  lemma LastSlotVisible(s: Table, k: nat)
    requires MemoryOk(s) && k < |s.base| && Kept(s, k)
    ensures LastSlot(s.writer, k) < s.n
  {
  }

  /** What the scan sees in slot r when entry k contains the address: entry k, or something that does not match. */
  lemma LoadOutcome(s: Table, a: nat, k: nat, r: nat)
    requires Inv(s) && k < |s.base| && s.base[k].Contains(a) && NoChunkEndsAt(s, a)
    requires r < s.n
    ensures r < |s.mem| && s.mem[r].Some?
    ensures Matches(s.mem[r].value, a) ==> s.mem[r] == Some(s.base[k])
    ensures r == LastSlot(s.writer, k) ==> Matches(s.mem[r].value, a)
  {
    VisibleSlot(s, r);
    OnlyMatch(s, a, k, s.mem[r].value);
    if r == LastSlot(s.writer, k) {
      SlotHoldsEntry(s, k);
    }
  }

  lemma ReaderKeepsAhead(s: Sys, a: nat, k: nat)
    requires Inv(s.tab) && k < |s.tab.base| && Kept(s.tab, k) && Ahead(s, k)
    requires s.tab.base[k].Contains(a) && NoChunkEndsAt(s.tab, a)
    ensures Ahead(Step(s, a, false), k)
  {
    match s.reader
    case AtTest(r) => LastSlotVisible(s.tab, k);
    case AtLoad(r) => LoadOutcome(s.tab, a, k, r);
    case Done(_) =>
  }

  /** Whatever the interleaving, and however many chunks are added meanwhile, a kept entry is what the scan returns. */
  lemma {:induction false} KeptEntryIsFound(s: Sys, a: nat, k: nat, schedule: seq<bool>)
    requires Inv(s.tab) && k < |s.tab.base| && Kept(s.tab, k) && Ahead(s, k)
    requires s.tab.base[k].Contains(a) && NoChunkEndsAt(s.tab, a)
    ensures var t := Exec(s, a, schedule);
            !t.reader.Wild? && (t.reader.Done? ==> t.reader.result == Some(s.tab.base[k]))
    decreases |schedule|
  {
    if schedule != [] {
      if schedule[0] {
        WriterKeepsInv(s.tab);
        WriterKeepsEntry(s.tab, k);
        KeptEntryIsFound(Step(s, a, true), a, NextIndex(s.tab, k), schedule[1..]);
      } else {
        ReaderKeepsAhead(s, a, k);
        KeptEntryIsFound(Step(s, a, false), a, k, schedule[1..]);
      }
    }
  }

  /** Total correctness: with enough moves of its own the scan has ended, and it has returned the kept entry. */
  lemma KeptEntryIsReturned(s: Sys, a: nat, k: nat, schedule: seq<bool>)
    requires Inv(s.tab) && k < |s.tab.base| && Kept(s.tab, k) && s.reader == AtTest(0)
    requires s.tab.base[k].Contains(a) && NoChunkEndsAt(s.tab, a)
    requires ReaderMoves(schedule) >= 2 * Total(s.tab) + 1
    ensures Exec(s, a, schedule).reader == Done(Some(s.tab.base[k]))
  {
    EveryScanEnds(s, a, schedule);
    KeptEntryIsFound(s, a, k, schedule);
  }

  // ---------------------------------------------------------------------------------------------
  // The condition is exact: otherwise some schedule answers wrongly
  // ---------------------------------------------------------------------------------------------

  lemma {:induction false} ExecConcat(s: Sys, a: nat, p: seq<bool>, q: seq<bool>)
    ensures Exec(s, a, p + q) == Exec(Exec(s, a, p), a, q)
    decreases |p|
  {
    if p == [] {
      assert p + q == q;
    } else {
      assert (p + q)[1..] == p[1..] + q;
      ExecConcat(Step(s, a, p[0]), a, p[1..], q);
    }
  }

  lemma TwoReads(s: Sys, a: nat)
    requires MemoryOk(s.tab) && s.reader.AtTest? && s.reader.r < s.tab.n
    ensures var r := s.reader.r;
            && r < |s.tab.mem| && s.tab.mem[r].Some?
            && Exec(s, a, [false, false]) ==
               s.(reader := if Matches(s.tab.mem[r].value, a) then Done(s.tab.mem[r]) else AtTest(r + 1))
  {
    VisibleSlot(s.tab, s.reader.r);
    var s1 := Step(s, a, false);
    assert Exec(s1, a, [false]) == Exec(Step(s1, a, false), a, []);
    assert [false, false][1..] == [false];
  }

  /** A scan of memory at rest finishes and returns the first match among the visible slots. */
  lemma {:induction false} QuietScan(s: Sys, a: nat) returns (p: seq<bool>, at: nat)
    requires MemoryOk(s.tab) && s.reader.AtTest? && s.reader.r <= s.tab.n
    ensures s.reader.r <= at <= s.tab.n <= |s.tab.mem|
    ensures forall j :: s.reader.r <= j < at ==> s.tab.mem[j].Some? && !Matches(s.tab.mem[j].value, a)
    ensures at < s.tab.n ==> s.tab.mem[at].Some? && Matches(s.tab.mem[at].value, a)
    ensures Exec(s, a, p) == s.(reader := Done(if at < s.tab.n then s.tab.mem[at] else None))
    decreases s.tab.n - s.reader.r
  {
    var r := s.reader.r;
    if r == s.tab.n {
      p, at := [false], r;
      assert Exec(s, a, p) == Exec(Step(s, a, false), a, []);
    } else {
      TwoReads(s, a);
      if Matches(s.tab.mem[r].value, a) {
        p, at := [false, false], r;
      } else {
        var q;
        q, at := QuietScan(s.(reader := AtTest(r + 1)), a);
        p := [false, false] + q;
        ExecConcat(s, a, [false, false], q);
      }
    }
  }

  /** Writer steps left until only the count is to be raised. */
  ghost function StepsToPlaced(s: Table): int {
    match s.writer
    case Idle => |s.base| + 2
    case Shifting(_, idx, i) => i - idx + 1
    case Placed(_, _) => 0
  }

  lemma NearerToPlaced(s: Table)
    requires Inv(s) && !s.writer.Placed? && (s.writer.Idle? ==> s.pending != [])
    ensures var t := WriterStep(s);
            && !t.writer.Idle? && t.base == s.base && 0 <= StepsToPlaced(t) < StepsToPlaced(s)
            && (NextGoesLast(t) <==> NextGoesLast(s))
            && |t.pending| + (if s.writer.Idle? then 1 else 0) == |s.pending|
  {
  }

  /** The writer alone can always bring an insertion to the point where only the count is left to raise. */
  lemma {:induction false} RunToPlaced(s: Sys, a: nat) returns (p: seq<bool>)
    requires Inv(s.tab) && (s.tab.writer.Idle? ==> s.tab.pending != [])
    ensures var t := Exec(s, a, p);
            && Inv(t.tab) && t.reader == s.reader && t.tab.base == s.tab.base
            && t.tab.writer.Placed? && Chunks(t.tab) == Chunks(s.tab)
            && (NextGoesLast(t.tab) <==> NextGoesLast(s.tab))
            && |t.tab.pending| + (if s.tab.writer.Idle? then 1 else 0) == |s.tab.pending|
    decreases StepsToPlaced(s.tab)
  {
    if s.tab.writer.Placed? {
      p := [];
    } else {
      WriterKeepsInv(s.tab);
      NearerToPlaced(s.tab);
      var q := RunToPlaced(Step(s, a, true), a);
      p := [true] + q;
      assert p[1..] == q && Exec(s, a, p) == Exec(Step(s, a, true), a, q);
    }
  }

  /** The writer alone can run the queue dry; everything is then in the table. */
  lemma {:induction false} RunToRest(s: Sys, a: nat) returns (p: seq<bool>)
    requires Inv(s.tab)
    ensures var t := Exec(s, a, p);
            && Inv(t.tab) && t.reader == s.reader
            && t.tab.writer.Idle? && t.tab.pending == [] && Chunks(t.tab) == Chunks(s.tab)
    decreases |s.tab.pending|, if s.tab.writer.Idle? then 0 else 1
  {
    if s.tab.writer.Idle? && s.tab.pending == [] {
      p := [];
    } else {
      var q := RunToPlaced(s, a);
      var t := Exec(s, a, q);
      WriterKeepsInv(t.tab);
      assert Exec(t, a, [true]) == Step(t, a, true);
      ExecConcat(s, a, q, [true]);
      var rest := RunToRest(Step(t, a, true), a);
      p := q + [true] + rest;
      ExecConcat(s, a, q + [true], rest);
    }
  }

  /** Before the count is raised, no visible slot holds the entry that was shifted past it. */
  lemma LastEntryInvisible(s: Table, r: nat)
    requires Inv(s) && s.writer.Placed? && s.writer.idx < |s.base| && r < s.n
    ensures s.mem[r] != Some(s.base[|s.base| - 1])
  {
    assert s.mem[r] == Some(Inserted(s.base, s.writer.m)[r]);
    assert s.writer.m in InFlight(s.writer);
    var last := |s.base| - 1;
    assert forall j :: 0 <= j < last ==> s.base[j].End() <= s.base[last].codeAddr;
  }

  /** The last entry is lost while a chunk below it is being added. */
  lemma LastEntryCanBeLost(s: Sys, a: nat) returns (p: seq<bool>)
    requires Inv(s.tab) && s.reader == AtTest(0) && |s.tab.base| > 0 && !NextGoesLast(s.tab)
    ensures var t := Exec(s, a, p);
            t.reader.Done? && t.reader.result != Some(s.tab.base[|s.tab.base| - 1])
  {
    var q := RunToPlaced(s, a);
    var t := Exec(s, a, q);
    var rest, at := QuietScan(t, a);
    p := q + rest;
    ExecConcat(s, a, q, rest);
    if at < t.tab.n {
      LastEntryInvisible(t.tab, at);
    }
  }

  /** In an ordered table a chunk that ends at an address comes before the one that contains it. */
  lemma EndsBefore(s: seq<MethodCode>, i: nat, j: nat, a: nat)
    requires Ordered(s) && i < |s| && j < |s| && s[i].End() == a && s[j].Contains(a)
    ensures i < j
  {
  }

  lemma RestAnswersLower(s: Table, a: nat, at: nat, c: MethodCode, e: MethodCode)
    requires MemoryOk(s) && Ordered(s.base) && s.writer.Idle? && at <= s.n
    requires c in s.base && c.End() == a && e in s.base && e.Contains(a)
    requires forall j :: 0 <= j < at ==> s.mem[j].Some? && !Matches(s.mem[j].value, a)
    ensures at < s.n && s.mem[at] != Some(e)
  {
    var i :| 0 <= i < |s.base| && s.base[i] == c;
    assert s.mem[i] == Some(c) && Matches(c, a);
    if s.base[at] == e {
      EndsBefore(s.base, i, at, a);
    }
  }

  /** A chunk that ends exactly at the address is returned in place of the one that starts there. */
  lemma EndAddressIsAmbiguous(s: Sys, a: nat, k: nat, c: MethodCode) returns (p: seq<bool>)
    requires Inv(s.tab) && s.reader == AtTest(0) && k < |s.tab.base| && s.tab.base[k].Contains(a)
    requires c in Chunks(s.tab) && c.End() == a
    ensures var t := Exec(s, a, p);
            t.reader.Done? && t.reader.result != Some(s.tab.base[k])
  {
    var e := s.tab.base[k];
    var q := RunToRest(s, a);
    var t := Exec(s, a, q);
    var rest, at := QuietScan(t, a);
    p := q + rest;
    ExecConcat(s, a, q, rest);
    assert e in Chunks(s.tab) && e in t.tab.base && c in t.tab.base;
    RestAnswersLower(t.tab, a, at, c, e);
  }

  lemma {:induction false} PaddedMoves(p: seq<bool>, n: nat)
    ensures ReaderMoves(p + seq(n, _ => false)) >= n
    decreases |p|, n
  {
    var pad := seq(n, _ => false);
    if p != [] {
      assert (p + pad)[1..] == p[1..] + pad;
      PaddedMoves(p[1..], n);
    } else if n > 0 {
      assert p + pad == pad && pad[1..] == seq(n - 1, _ => false) && [] + pad[1..] == pad[1..];
      PaddedMoves([], n - 1);
    }
  }

  lemma WrongAnswer(s: Sys, a: nat, k: nat) returns (p: seq<bool>)
    requires Inv(s.tab) && s.reader == AtTest(0) && k < |s.tab.base| && s.tab.base[k].Contains(a)
    requires !NoChunkEndsAt(s.tab, a) || !Kept(s.tab, k)
    ensures var t := Exec(s, a, p);
            t.reader.Done? && t.reader.result != Some(s.tab.base[k])
  {
    if !Kept(s.tab, k) {
      p := LastEntryCanBeLost(s, a);
    } else {
      var c :| c in Chunks(s.tab) && c.End() == a;
      p := EndAddressIsAmbiguous(s, a, k, c);
    }
  }

  /** A finished scan stays finished, whatever moves are added. */
  lemma Padded(s: Sys, a: nat, p: seq<bool>, n: nat) returns (q: seq<bool>)
    requires Exec(s, a, p).reader.Done?
    ensures ReaderMoves(q) >= n && Exec(s, a, q).reader == Exec(s, a, p).reader
  {
    var pad := seq(n, _ => false);
    q := p + pad;
    PaddedMoves(p, n);
    ExecConcat(s, a, p, pad);
    DoneStays(Exec(s, a, p), a, pad);
  }

  /** Exactness: from any point of an add, every scan, given the moves it needs, returns entry k, which contains the
      address, if and only if no registered or queued chunk ends at the address and entry k is not the last one
      or stays in place during the next insertion. */
  lemma ScanReturnsEntryIff(s: Sys, a: nat, k: nat)
    requires Inv(s.tab) && s.reader == AtTest(0) && k < |s.tab.base| && s.tab.base[k].Contains(a)
    ensures (forall schedule :: ReaderMoves(schedule) >= 2 * Total(s.tab) + 1 ==>
                Exec(s, a, schedule).reader == Done(Some(s.tab.base[k])))
            <==> NoChunkEndsAt(s.tab, a) && Kept(s.tab, k)
  {
    if NoChunkEndsAt(s.tab, a) && Kept(s.tab, k) {
      forall schedule | ReaderMoves(schedule) >= 2 * Total(s.tab) + 1
        ensures Exec(s, a, schedule).reader == Done(Some(s.tab.base[k])) {
        KeptEntryIsReturned(s, a, k, schedule);
      }
    } else {
      var p := WrongAnswer(s, a, k);
      var q := Padded(s, a, p, 2 * Total(s.tab) + 1);
    }
  }
}
