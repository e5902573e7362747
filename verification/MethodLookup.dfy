/** The table of registered code chunks: a growable ordered array with a direct-mapped cache in front. */
module MethodLookup {
  import opened Wrappers
  import opened CodeChunks

  const EIP_CACHE_SIZE := 1024
  const EIP_ALIGNMENT := 4
  const INITIAL_CAPACITY := 511

  /** The observable state: the ordered entries and the cache. */
  datatype State = State(entries: seq<MethodCode>, cache: seq<Option<MethodCode>>)

  datatype Op = Add(m: MethodCode) | Remove(addr: nat) | Find(ip: nat, isIpPast: bool)

  datatype Output = Silent | Removed(found: bool) | Answer(chunk: Option<MethodCode>)

  function CacheIndex(a: nat): (i: nat)
    ensures i < EIP_CACHE_SIZE
  {
    (a / EIP_ALIGNMENT) % EIP_CACHE_SIZE
  }

  /** Every cached chunk is a current entry. */
  ghost predicate Coherent(s: State) {
    && |s.cache| == EIP_CACHE_SIZE
    && forall i :: 0 <= i < |s.cache| && s.cache[i].Some? ==> s.cache[i].value in s.entries
  }

  ghost predicate Inv(s: State) {
    Ordered(s.entries) && Coherent(s)
  }

  function Initial(): State {
    State([], seq(EIP_CACHE_SIZE, _ => None))
  }

  predicate Hits(slot: Option<MethodCode>, a: nat) {
    slot.Some? && slot.value.Contains(a)
  }

  function Purged(cache: seq<Option<MethodCode>>, a: nat): (r: seq<Option<MethodCode>>)
    ensures |r| == |cache|
  {
    seq(|cache|, i requires 0 <= i < |cache| => if Hits(cache[i], a) then None else cache[i])
  }

  function TableLookup(s: seq<MethodCode>, a: nat): Option<MethodCode> {
    var k := InsertionIndex(s, a);
    if k < |s| && s[k].codeAddr <= a then Some(s[k]) else None
  }

  function WithoutContaining(s: seq<MethodCode>, a: nat): (t: seq<MethodCode>)
    ensures t == s || (|t| == |s| - 1 && InsertionIndex(s, a) <= |t|)
    ensures t != s ==> forall i :: 0 <= i < InsertionIndex(s, a) ==> t[i] == s[i]
    ensures t != s ==> forall i :: InsertionIndex(s, a) <= i < |t| ==> t[i] == s[i + 1]
  {
    var k := InsertionIndex(s, a);
    if k < |s| && s[k].codeAddr <= a then s[..k] + s[k + 1..] else s
  }

  function AddStep(s: State, m: MethodCode): State {
    s.(entries := Inserted(s.entries, m))
  }

  function RemoveStep(s: State, a: nat): (State, bool) {
    if a == 0 then (s, false)
    else (State(WithoutContaining(s.entries, a), Purged(s.cache, a)), TableLookup(s.entries, a).Some?)
  }

  function FindStep(s: State, ip: nat, past: bool): (State, Option<MethodCode>)
    requires |s.cache| == EIP_CACHE_SIZE
  {
    if ip == 0 then (s, None) else
      var a := if past then ip - 1 else ip;
      var slot := s.cache[CacheIndex(a)];
      if Hits(slot, a) then (s, slot)
      else
        var hit := TableLookup(s.entries, a);
        (if hit.Some? then s.(cache := s.cache[CacheIndex(a) := hit]) else s, hit)
  }

  function Step(s: State, op: Op): (State, Output)
    requires |s.cache| == EIP_CACHE_SIZE
  {
    match op
    case Add(m) => (AddStep(s, m), Silent)
    case Remove(a) => var (t, found) := RemoveStep(s, a); (t, Removed(found))
    case Find(ip, past) => var (t, r) := FindStep(s, ip, past); (t, Answer(r))
  }

  // ---------------------------------------------------------------------------------------------
  // The reference: a plain set of disjoint ranges
  // ---------------------------------------------------------------------------------------------

  ghost function Chunks(s: seq<MethodCode>): set<MethodCode> { set c | c in s }

  ghost predicate Legal(S: set<MethodCode>, op: Op) {
    op.Add? ==> op.m.size > 0 && forall c :: c in S ==> c.Apart(op.m)
  }

  ghost function SpecNext(S: set<MethodCode>, op: Op): set<MethodCode> {
    match op
    case Add(m) => S + {m}
    case Remove(a) => if a == 0 then S else set c | c in S && !c.Contains(a)
    case Find(_, _) => S
  }

  ghost predicate SpecOutput(S: set<MethodCode>, op: Op, out: Output) {
    match op
    case Add(_) => out.Silent?
    case Remove(a) => out == Removed(a != 0 && exists c :: c in S && c.Contains(a))
    case Find(ip, past) =>
      out.Answer? &&
      if ip == 0 then out.chunk.None? else
        var a := if past then ip - 1 else ip;
        if out.chunk.Some? then out.chunk.value in S && out.chunk.value.Contains(a)
        else forall c :: c in S ==> !c.Contains(a)
  }

  /** Disjointness makes the reference answer unique. */
  lemma SpecOutputUnique(s: seq<MethodCode>, op: Op, out1: Output, out2: Output)
    requires Ordered(s)
    requires SpecOutput(Chunks(s), op, out1) && SpecOutput(Chunks(s), op, out2)
    ensures out1 == out2
  {
    if op.Find? && op.ip != 0 {
      LookupByIndex(s, if op.isIpPast then op.ip - 1 else op.ip);
      assert forall c :: c in s ==> c in Chunks(s);
    }
  }

  lemma TableLookupIsSetLookup(s: seq<MethodCode>, a: nat)
    requires Ordered(s)
    ensures TableLookup(s, a).Some? ==> TableLookup(s, a).value in s && TableLookup(s, a).value.Contains(a)
    ensures TableLookup(s, a).None? ==> forall c :: c in s ==> !c.Contains(a)
  {
    LookupByIndex(s, a);
  }

  lemma RemovalKeepsOrder(s: seq<MethodCode>, a: nat)
    requires Ordered(s)
    ensures Ordered(WithoutContaining(s, a))
  {
    var k, t := InsertionIndex(s, a), WithoutContaining(s, a);
    if t != s {
      forall i, j | 0 <= i < j < |t| ensures t[i].End() <= t[j].codeAddr {
        assert t[i] == (if i < k then s[i] else s[i + 1]) && t[j] == (if j < k then s[j] else s[j + 1]);
      }
    }
  }

  lemma RemovalMember(s: seq<MethodCode>, a: nat, i: nat)
    requires Ordered(s) && i < |s|
    ensures s[i] in WithoutContaining(s, a) <==> !s[i].Contains(a)
  {
    LookupByIndex(s, a);
    var k, t := InsertionIndex(s, a), WithoutContaining(s, a);
    if k < |s| && s[k].codeAddr <= a {
      if i < k {
        assert t[i] == s[i];
      } else if i > k {
        assert t[i - 1] == s[i];
      } else {
        assert forall j :: 0 <= j < |t| ==> !t[j].Contains(a);
      }
    }
  }

  lemma RemovalIsSetRemoval(s: seq<MethodCode>, a: nat)
    requires Ordered(s)
    ensures Chunks(WithoutContaining(s, a)) == set c | c in s && !c.Contains(a)
  {
    var t := WithoutContaining(s, a);
    forall c | c in s ensures c in t <==> !c.Contains(a) {
      var i :| 0 <= i < |s| && s[i] == c;
      RemovalMember(s, a, i);
    }
    forall c | c in t ensures c in s {
      var i :| 0 <= i < |t| && t[i] == c;
    }
  }

  lemma PurgeKeepsCoherence(s: State, a: nat)
    requires Inv(s)
    ensures Coherent(State(WithoutContaining(s.entries, a), Purged(s.cache, a)))
  {
    var cache := Purged(s.cache, a);
    forall i | 0 <= i < |cache| && cache[i].Some? ensures cache[i].value in WithoutContaining(s.entries, a) {
      assert cache[i] == s.cache[i] && !Hits(s.cache[i], a);
      var j :| 0 <= j < |s.entries| && s.entries[j] == cache[i].value;
      RemovalMember(s.entries, a, j);
    }
  }

  lemma AddKeepsCoherence(s: State, m: MethodCode)
    requires Coherent(s)
    ensures Coherent(s.(entries := Inserted(s.entries, m)))
  {
    InsertedMembers(s.entries, m);
  }

  lemma AddIsSetAddition(s: seq<MethodCode>, m: MethodCode)
    ensures Chunks(Inserted(s, m)) == Chunks(s) + {m}
  {
    InsertedMembers(s, m);
  }

  lemma LegalIsApart(s: seq<MethodCode>, m: MethodCode)
    requires Legal(Chunks(s), Add(m))
    ensures ApartFromAll(m, s)
  {
    assert forall i :: 0 <= i < |s| ==> s[i] in Chunks(s);
  }

  lemma AddRefines(s: State, m: MethodCode)
    requires Inv(s) && Legal(Chunks(s.entries), Add(m))
    ensures Inv(s.(entries := Inserted(s.entries, m)))
    ensures Chunks(Inserted(s.entries, m)) == Chunks(s.entries) + {m}
  {
    LegalIsApart(s.entries, m);
    InsertedOrdered(s.entries, m);
    AddKeepsCoherence(s, m);
    AddIsSetAddition(s.entries, m);
  }

  lemma RemoveRefines(s: State, a: nat)
    requires Inv(s)
    ensures var (t, out) := Step(s, Remove(a));
            Inv(t) && Chunks(t.entries) == SpecNext(Chunks(s.entries), Remove(a)) &&
            SpecOutput(Chunks(s.entries), Remove(a), out)
  {
    if a != 0 {
      RemovalKeepsOrder(s.entries, a);
      RemovalIsSetRemoval(s.entries, a);
      PurgeKeepsCoherence(s, a);
      TableLookupIsSetLookup(s.entries, a);
      if TableLookup(s.entries, a).Some? {
        assert TableLookup(s.entries, a).value in Chunks(s.entries);
      }
    }
  }

  lemma FindRefines(s: State, ip: nat, past: bool)
    requires Inv(s)
    ensures var (t, out) := Step(s, Find(ip, past));
            Inv(t) && t.entries == s.entries && SpecOutput(Chunks(s.entries), Find(ip, past), out)
  {
    if ip != 0 {
      var a := if past then ip - 1 else ip;
      if !Hits(s.cache[CacheIndex(a)], a) {
        TableLookupIsSetLookup(s.entries, a);
        var t := Step(s, Find(ip, past)).0;
        assert forall i :: 0 <= i < |t.cache| && t.cache[i].Some? ==>
                 t.cache[i] == s.cache[i] || t.cache[i] == TableLookup(s.entries, a);
      }
    }
  }

  /** One atomic operation keeps the invariant and simulates the set of ranges. */
  lemma StepRefines(s: State, op: Op)
    requires Inv(s) && Legal(Chunks(s.entries), op)
    ensures Inv(Step(s, op).0)
    ensures Chunks(Step(s, op).0.entries) == SpecNext(Chunks(s.entries), op)
    ensures SpecOutput(Chunks(s.entries), op, Step(s, op).1)
  {
    match op
    case Add(m) => AddRefines(s, m);
    case Remove(a) => RemoveRefines(s, a);
    case Find(ip, past) => FindRefines(s, ip, past);
  }

  ghost predicate LegalRun(S: set<MethodCode>, ops: seq<Op>)
    decreases |ops|
  {
    ops == [] || (Legal(S, ops[0]) && LegalRun(SpecNext(S, ops[0]), ops[1..]))
  }

  ghost predicate SpecRun(S: set<MethodCode>, ops: seq<Op>, outs: seq<Output>)
    decreases |ops|
  {
    |outs| == |ops| &&
    (ops == [] || (SpecOutput(S, ops[0], outs[0]) && SpecRun(SpecNext(S, ops[0]), ops[1..], outs[1..])))
  }

  function Run(s: State, ops: seq<Op>): (State, seq<Output>)
    requires |s.cache| == EIP_CACHE_SIZE
    decreases |ops|
  {
    if ops == [] then (s, []) else
      var (s1, out) := Step(s, ops[0]);
      var (s2, outs) := Run(s1, ops[1..]);
      (s2, [out] + outs)
  }

  /** Trace refinement: over every history the outputs are those of the plain set of ranges. */
  lemma {:induction false} TraceRefinement(s: State, ops: seq<Op>)
    requires Inv(s) && LegalRun(Chunks(s.entries), ops)
    ensures Inv(Run(s, ops).0)
    ensures SpecRun(Chunks(s.entries), ops, Run(s, ops).1)
    decreases |ops|
  {
    if ops != [] {
      StepRefines(s, ops[0]);
      TraceRefinement(Step(s, ops[0]).0, ops[1..]);
      assert ([Step(s, ops[0]).1] + Run(Step(s, ops[0]).0, ops[1..]).1)[1..] == Run(Step(s, ops[0]).0, ops[1..]).1;
    }
  }

  // ---------------------------------------------------------------------------------------------
  // Removal is not atomic: the cache is purged first, then the lock is taken and the entry unlinked
  // ---------------------------------------------------------------------------------------------

  function Purge(s: State, a: nat): State { s.(cache := Purged(s.cache, a)) }

  function Unlink(s: State, a: nat): State { s.(entries := WithoutContaining(s.entries, a)) }

  ghost predicate NoneHits(s: State, a: nat) {
    forall i :: 0 <= i < |s.cache| ==> !Hits(s.cache[i], a)
  }

  /** No lookup of the run answers with a chunk that contains `a`. */
  ghost predicate NotAnswered(outs: seq<Output>, a: nat) {
    forall i :: 0 <= i < |outs| && outs[i].Answer? ==> !Hits(outs[i].chunk, a)
  }

  lemma PurgeKeepsInv(s: State, a: nat)
    requires Inv(s)
    ensures Inv(Purge(s, a)) && NoneHits(Purge(s, a), a)
  {
    assert forall i :: 0 <= i < |s.cache| && Purged(s.cache, a)[i].Some? ==> Purged(s.cache, a)[i] == s.cache[i];
  }

  lemma {:induction false} StaysPurged(s: State, ops: seq<Op>, a: nat)
    requires |s.cache| == EIP_CACHE_SIZE && NoneHits(s, a) && NotAnswered(Run(s, ops).1, a)
    ensures NoneHits(Run(s, ops).0, a)
    decreases |ops|
  {
    if ops != [] {
      var (s1, out) := Step(s, ops[0]);
      var (s2, outs) := Run(s1, ops[1..]);
      assert Run(s, ops).1 == [out] + outs && Run(s, ops).1[0] == out;
      assert forall i :: 0 <= i < |outs| ==> outs[i] == Run(s, ops).1[i + 1];
      StaysPurged(s1, ops[1..], a);
    }
  }

  /** Unlinking leaves every cached chunk a current entry exactly when no cached chunk is the unlinked one. */
  lemma UnlinkCoherentIff(s: State, a: nat)
    requires Inv(s)
    ensures Coherent(Unlink(s, a)) <==> NoneHits(s, a)
  {
    forall i | 0 <= i < |s.cache| && s.cache[i].Some?
      ensures s.cache[i].value in WithoutContaining(s.entries, a) <==> !Hits(s.cache[i], a) {
      var j :| 0 <= j < |s.entries| && s.entries[j] == s.cache[i].value;
      RemovalMember(s.entries, a, j);
    }
  }

  /** Whatever other calls come between the two halves of a removal, the invariant survives if none of them
      answers with the chunk being removed. */
  lemma InterleavedRemoval(s: State, a: nat, ops: seq<Op>)
    requires Inv(s) && LegalRun(Chunks(s.entries), ops)
    requires NotAnswered(Run(Purge(s, a), ops).1, a)
    ensures Inv(Unlink(Run(Purge(s, a), ops).0, a))
  {
    PurgeKeepsInv(s, a);
    TraceRefinement(Purge(s, a), ops);
    StaysPurged(Purge(s, a), ops, a);
    UnlinkCoherentIff(Run(Purge(s, a), ops).0, a);
    RemovalKeepsOrder(Run(Purge(s, a), ops).0.entries, a);
  }

  /** The address a lookup searches for. */
  function Effective(ip: nat, past: bool): nat
    requires ip != 0
  {
    if past then ip - 1 else ip
  }

  predicate LooksInto(op: Op, c: MethodCode) {
    op.Find? && op.ip != 0 && c.Contains(Effective(op.ip, op.isIpPast))
  }

  /** The operation does not itself remove `c`. */
  predicate Spares(op: Op, c: MethodCode) {
    op.Remove? ==> op.addr == 0 || !c.Contains(op.addr)
  }

  lemma OnlyContainer(s: seq<MethodCode>, a: nat, c: MethodCode, d: MethodCode)
    requires Ordered(s) && c in s && d in s && c.Contains(a) && d.Contains(a)
    ensures c == d
  {
    LookupByIndex(s, a);
  }

  /** The lookup half of one step: the chunk stays, and is not answered unless it is looked into. */
  lemma StepSpares(s: State, op: Op, a: nat, c: MethodCode)
    requires Inv(s) && Legal(Chunks(s.entries), op) && c in s.entries && c.Contains(a)
    requires Spares(op, c) && !LooksInto(op, c)
    ensures var (t, out) := Step(s, op);
            Inv(t) && c in t.entries && (out.Answer? ==> !Hits(out.chunk, a))
  {
    StepRefines(s, op);
    var (t, out) := Step(s, op);
    assert c in Chunks(s.entries) && c in Chunks(t.entries);
    if out.Answer? && Hits(out.chunk, a) {
      OnlyContainer(s.entries, a, c, out.chunk.value);
      assert false;
    }
  }

  lemma {:induction false} NotLookedInto(s: State, ops: seq<Op>, a: nat, c: MethodCode)
    requires Inv(s) && LegalRun(Chunks(s.entries), ops) && c in s.entries && c.Contains(a)
    requires forall i :: 0 <= i < |ops| ==> Spares(ops[i], c) && !LooksInto(ops[i], c)
    ensures NotAnswered(Run(s, ops).1, a)
    decreases |ops|
  {
    if ops != [] {
      var (s1, out) := Step(s, ops[0]);
      StepRefines(s, ops[0]);
      StepSpares(s, ops[0], a, c);
      NotLookedInto(s1, ops[1..], a, c);
    }
  }

  /** The removed chunk outlives its removal: for every registered chunk and address in it, a lookup of any address
      of the chunk between the two halves makes the same lookup afterwards answer with the removed chunk. */
  lemma StaleAnswer(s: State, a: nat, c: MethodCode, ip: nat, past: bool)
    requires Inv(s) && a != 0 && c in s.entries && c.Contains(a)
    requires ip != 0 && c.Contains(Effective(ip, past))
    ensures var t := Unlink(FindStep(Purge(s, a), ip, past).0, a);
            c !in t.entries && FindStep(t, ip, past).1 == Some(c) && !Coherent(t)
  {
    var p, e := Purge(s, a), Effective(ip, past);
    PurgeKeepsInv(s, a);
    LookupByIndex(s.entries, e);
    var i :| 0 <= i < |s.entries| && s.entries[i] == c;
    RemovalMember(s.entries, a, i);
    assert TableLookup(s.entries, e) == Some(c);
    assert !Hits(p.cache[CacheIndex(e)], e) by {
      if Hits(p.cache[CacheIndex(e)], e) {
        OnlyContainer(s.entries, e, c, p.cache[CacheIndex(e)].value);
        assert false;
      }
    }
    assert FindStep(p, ip, past).0.cache[CacheIndex(e)] == Some(c);
  }

  ghost predicate DrawnFrom(ops: seq<Op>, W: iset<Op>) {
    forall i :: 0 <= i < |ops| ==> ops[i] in W
  }

  lemma OneOp(s: State, op: Op)
    requires |s.cache| == EIP_CACHE_SIZE
    ensures Run(s, [op]).0 == Step(s, op).0
  {
    assert [op][1..] == [];
    assert Run(Step(s, op).0, []) == (Step(s, op).0, []);
  }

  /** Exactness: whatever adds, removes of other chunks and lookups of W come between the two halves of the removal of
      chunk c, the table stays ordered and the cache coherent, if and only if no lookup of W is for an address of c. */
  lemma RemovalSafeIff(s: State, a: nat, c: MethodCode, W: iset<Op>)
    requires Inv(s) && a != 0 && c in s.entries && c.Contains(a)
    requires forall op :: op in W ==> Spares(op, c)
    ensures (forall ops :: DrawnFrom(ops, W) && LegalRun(Chunks(s.entries), ops) ==>
               Inv(Unlink(Run(Purge(s, a), ops).0, a)))
            <==> forall op :: op in W ==> !LooksInto(op, c)
  {
    if forall op :: op in W ==> !LooksInto(op, c) {
      forall ops | DrawnFrom(ops, W) && LegalRun(Chunks(s.entries), ops)
        ensures Inv(Unlink(Run(Purge(s, a), ops).0, a)) {
        PurgeKeepsInv(s, a);
        NotLookedInto(Purge(s, a), ops, a, c);
        InterleavedRemoval(s, a, ops);
      }
    } else {
      var op :| op in W && LooksInto(op, c);
      StaleAnswer(s, a, c, op.ip, op.isIpPast);
      OneOp(Purge(s, a), op);
      assert DrawnFrom([op], W) && LegalRun(Chunks(s.entries), [op]);
    }
  }

  // ---------------------------------------------------------------------------------------------
  // The table object
  // ---------------------------------------------------------------------------------------------

  lemma OpenedSlot(before: seq<MethodCode>, after: seq<MethodCode>, idx: nat, m: MethodCode)
    requires idx <= |before| && |after| == |before| + 1 && after[idx] == m
    requires forall j :: 0 <= j < idx ==> after[j] == before[j]
    requires forall j :: idx < j < |after| ==> after[j] == before[j - 1]
    ensures after == before[..idx] + [m] + before[idx..]
  {
  }

  /** In an ordered table, an address at or above the end of entry `i` has its insertion index beyond `i`. */
  lemma IndexAbove(s: seq<MethodCode>, a: nat, i: nat)
    requires Ordered(s) && i < |s| && s[i].End() <= a
    ensures i < InsertionIndex(s, a)
  {
  }

  class MethodLookupTable {
    var table: array<MethodCode>
    var nextFreeEntry: nat
    const cache: array<Option<MethodCode>>

    ghost predicate Shaped()
      reads this
    {
      0 < table.Length && nextFreeEntry <= table.Length && cache.Length == EIP_CACHE_SIZE
    }

    ghost function Snapshot(): State
      reads this, table, cache
      requires Shaped()
    {
      State(table[..nextFreeEntry], cache[..])
    }

    constructor ()
      ensures Shaped() && fresh(table) && fresh(cache)
      ensures Snapshot() == Initial() && table.Length == INITIAL_CAPACITY
    {
      cache := new Option<MethodCode>[EIP_CACHE_SIZE](_ => None);
      table := new MethodCode[INITIAL_CAPACITY];
      nextFreeEntry := 0;
    }

    method Reallocate(newCapacity: nat)
      requires Shaped() && nextFreeEntry < newCapacity
      modifies this`table
      ensures Shaped() && fresh(table) && table.Length == newCapacity
      ensures Snapshot() == old(Snapshot())
    {
      var newTable := new MethodCode[newCapacity];
      var i := 0;
      while i < nextFreeEntry
        invariant 0 <= i <= nextFreeEntry
        invariant newTable[..i] == table[..i]
        modifies newTable
      {
        newTable[i] := table[i];
        i := i + 1;
      }
      table := newTable;
    }

    method FindIndex(addr: nat) returns (index: nat)
      requires Shaped() && Ordered(Snapshot().entries)
      ensures index == InsertionIndex(Snapshot().entries, addr)
    {
      ghost var s := Snapshot().entries;
      var L, R := 0, nextFreeEntry;
      while L < R
        invariant 0 <= L <= R <= nextFreeEntry
        invariant L <= InsertionIndex(s, addr) <= R
      {
        var M := (L + R) / 2;
        var m := table[M];
        assert m == s[M];
        if addr < m.codeAddr {
          R := M;
        } else if addr >= m.End() {
          IndexAbove(s, addr, M);
          L := M + 1;
        } else {
          LookupByIndex(s, addr);
          return M;
        }
      }
      return L;
    }

    /** Shift entries from `idx` on one slot to the right, starting from the right, then write `m` there. */
    method ShiftAndPlace(idx: nat, m: MethodCode)
      requires Shaped() && idx <= nextFreeEntry < table.Length
      modifies this`nextFreeEntry, table
      ensures Shaped() && nextFreeEntry == old(nextFreeEntry) + 1
      ensures table[..nextFreeEntry] == old(table[..nextFreeEntry])[..idx] + [m] + old(table[..nextFreeEntry])[idx..]
    {
      var i := nextFreeEntry;
      while i > idx
        invariant idx <= i <= nextFreeEntry
        invariant forall j :: 0 <= j < nextFreeEntry && j <= i ==> table[j] == old(table[j])
        invariant forall j :: i < j <= nextFreeEntry ==> table[j] == old(table[j - 1])
        modifies table
      {
        table[i] := table[i - 1];
        i := i - 1;
      }
      table[idx] := m;
      nextFreeEntry := nextFreeEntry + 1;
      OpenedSlot(old(table[..nextFreeEntry]), table[..nextFreeEntry], idx, m);
    }

    /** Add a chunk, growing the table when it is full. */
    method Add(m: MethodCode)
      requires Shaped() && Ordered(Snapshot().entries)
      modifies this, table
      ensures Shaped() && (fresh(table) || table == old(table))
      ensures Snapshot() == AddStep(old(Snapshot()), m)
    {
      if nextFreeEntry >= table.Length {
        Reallocate(2 * table.Length);
      }
      var idx := FindIndex(m.codeAddr);
      ShiftAndPlace(idx, m);
    }

    /** Shift the entries above `idx` one slot to the left. */
    method ShiftOver(idx: nat)
      requires Shaped() && idx < nextFreeEntry
      modifies this`nextFreeEntry, table
      ensures Shaped() && nextFreeEntry == old(nextFreeEntry) - 1
      ensures table[..nextFreeEntry] == old(table[..nextFreeEntry])[..idx] + old(table[..nextFreeEntry])[idx + 1..]
    {
      var i := idx;
      while i < nextFreeEntry - 1
        invariant idx <= i <= nextFreeEntry - 1
        invariant forall j :: 0 <= j < i ==> table[j] == old(table[if j < idx then j else j + 1])
        invariant forall j :: i < j < nextFreeEntry ==> table[j] == old(table[j])
        modifies table
      {
        table[i] := table[i + 1];
        i := i + 1;
      }
      nextFreeEntry := nextFreeEntry - 1;
    }

    method PurgeCache(addr: nat)
      requires cache.Length == EIP_CACHE_SIZE
      modifies cache
      ensures cache[..] == Purged(old(cache[..]), addr)
    {
      var i := 0;
      while i < EIP_CACHE_SIZE
        invariant 0 <= i <= EIP_CACHE_SIZE
        invariant forall j :: 0 <= j < i ==> cache[j] == if Hits(old(cache[j]), addr) then None else old(cache[j])
        invariant forall j :: i <= j < EIP_CACHE_SIZE ==> cache[j] == old(cache[j])
      {
        if cache[i].Some? && addr >= cache[i].value.codeAddr && addr < cache[i].value.End() {
          cache[i] := None;
        }
        i := i + 1;
      }
    }

    /** The bisection shared by lookup and removal: the index of the entry that contains `addr`, if any. */
    method Search(addr: nat) returns (found: bool, index: nat)
      requires Shaped() && Ordered(Snapshot().entries)
      ensures found <==> TableLookup(Snapshot().entries, addr).Some?
      ensures found ==> index == InsertionIndex(Snapshot().entries, addr) < nextFreeEntry
      ensures found ==> TableLookup(Snapshot().entries, addr) == Some(table[index])
    {
      ghost var s := Snapshot().entries;
      LookupByIndex(s, addr);
      var L, R := 0, nextFreeEntry;
      while L < R
        invariant 0 <= L <= R <= nextFreeEntry
        invariant L <= InsertionIndex(s, addr) <= R
        invariant R < nextFreeEntry ==> addr < s[R].codeAddr
      {
        var M := (L + R) / 2;
        var m := table[M];
        assert m == s[M];
        if addr < m.codeAddr {
          R := M;
        } else if addr >= m.End() {
          IndexAbove(s, addr, M);
          L := M + 1;
        } else {
          return true, M;
        }
      }
      return false, 0;
    }

    method Remove(addr: nat) returns (found: bool)
      requires Shaped() && Ordered(Snapshot().entries)
      modifies this`nextFreeEntry, table, cache
      ensures Shaped()
      ensures (Snapshot(), found) == RemoveStep(old(Snapshot()), addr)
    {
      if addr == 0 {
        return false;
      }
      PurgeCache(addr);
      var index;
      found, index := Search(addr);
      if found {
        ShiftOver(index);
      }
    }

    method Find(ip: nat, isIpPast: bool) returns (r: Option<MethodCode>)
      requires Shaped() && Ordered(Snapshot().entries)
      modifies cache
      ensures (Snapshot(), r) == FindStep(old(Snapshot()), ip, isIpPast)
    {
      if ip == 0 {
        return None;
      }
      ghost var was := Snapshot();
      var addr := if isIpPast then ip - 1 else ip;
      var cacheIdx := CacheIndex(addr);
      var guess := cache[cacheIdx];
      if guess.Some? && addr >= guess.value.codeAddr && addr < guess.value.End() {
        return guess;
      }
      var found, index := Search(addr);
      if !found {
        return None;
      }
      r := Some(table[index]);
      cache[cacheIdx] := r;
      assert table[..nextFreeEntry] == was.entries && cache[..] == was.cache[cacheIdx := r];
      assert Snapshot() == was.(cache := was.cache[cacheIdx := r]);
    }
  }
}
