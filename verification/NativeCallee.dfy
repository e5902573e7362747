/** The other side of a native call: the stub that loads the registers from the argument block, and a C function
    that takes its parameters as section 3.2.3 of the System V AMD64 ABI says, left to right. */
module NativeCallee {
  import opened OperandStack
  import opened Descriptors
  import opened NativeCall

  /** Floating-point values are bit patterns; an object reference is the object's address, 0 for null. */
  datatype JavaValue =
    | IntValue(i: int)
    | LongValue(i: int)
    | FloatBits(bits: nat)
    | DoubleBits(bits: nat)
    | ObjectRef(address: nat)

  /** How the interpreter keeps a value of type t in a 64-bit cell. */
  ghost predicate Holds(t: FieldType, cell: nat, v: JavaValue) {
    if !t.Base? then v == ObjectRef(cell)
    else match t.c
      case 'I' => v == IntValue(Signed(B32, cell))
      case 'S' => v == IntValue(Signed(B32, cell)) && -B16 / 2 <= v.i < B16 / 2
      case 'B' => v == IntValue(Signed(B32, cell)) && -B8 / 2 <= v.i < B8 / 2
      case 'Z' => v == IntValue(cell % B32) && v.i <= 1
      case 'C' => v == IntValue(cell % B32) && v.i < B16
      case 'J' => v == LongValue(Signed(B64, cell))
      case 'F' => v == FloatBits(cell % B32)
      case 'D' => v == DoubleBits(cell)
      case _ => false
  }

  /** What native code sees in a parameter or result word of its C type; references are handles, dereferenced by
      `deref`. */
  function Seen(t: FieldType, w: nat, deref: nat -> nat): JavaValue {
    if !t.Base? then ObjectRef(if w == 0 then 0 else deref(w))
    else match t.c
      case 'I' => IntValue(Signed(B32, w))
      case 'S' => IntValue(Signed(B16, w))
      case 'B' => IntValue(Signed(B8, w))
      case 'Z' => IntValue(w % B8)
      case 'C' => IntValue(w % B16)
      case 'J' => LongValue(Signed(B64, w))
      case 'F' => FloatBits(w % B32)
      case _ => DoubleBits(w)
  }

  /** Reading through a handle to a slot of the stack whose cells start at `dataAddr`. */
  function SlotDeref(cells: seq<nat>, dataAddr: nat): nat -> nat {
    (h: nat) => if h >= dataAddr && (h - dataAddr) / 8 < |cells| then cells[(h - dataAddr) / 8] else 0
  }

  /** Sign extension to 64 bits keeps the low 8, 16 and 32 bits as signed numbers. */
  lemma SignExtensionKeeps(v: int, modulus: nat)
    requires modulus == B8 || modulus == B16 || modulus == B32
    requires -(modulus / 2) <= v < modulus / 2
    ensures Signed(modulus, Extend64(v)) == v
  {
    if modulus == B8 {
    } else if modulus == B16 {
    } else {
    }
  }

  lemma SignedCellRoundTrip(c: char, cell: nat, v: JavaValue)
    requires KindOf(c).SignExtended? && Holds(Base(c), cell, v)
    ensures Seen(Base(c), ArgWord(SignExtended, cell, 0), _ => 0) == v
  {
    SignExtensionKeeps(v.i, if c == 'B' then B8 else if c == 'S' then B16 else B32);
  }

  lemma ArgumentRoundTrip(t: FieldType, w: nat, cells: seq<nat>, k: nat, dataAddr: nat, v: JavaValue)
    requires WellFormed(t) && k < |cells| && dataAddr > 0
    requires Passed(t, w, cells[k], dataAddr + 8 * k) && Holds(t, cells[k], v)
    ensures Seen(t, w, SlotDeref(cells, dataAddr)) == v
  {
    if !t.Base? {
      assert (8 * k) / 8 == k;
    } else if KindOf(t.c).SignExtended? {
      SignedCellRoundTrip(t.c, cells[k], v);
    }
  }

  // ---------------------------------------------------------------------------------------------
  // The stub and the callee
  // ---------------------------------------------------------------------------------------------

  /** What the callee finds on entry: rdi, rsi, rdx, rcx, r8, r9; xmm0 to xmm7; the memory words, lowest first. */
  datatype Entry = Entry(ints: seq<nat>, fps: seq<nat>, memory: seq<nat>)

  /** A word of the block; what lies behind the block is of no interest and read as 0. */
  function Word(block: seq<nat>, k: nat): nat { if k < |block| then block[k] else 0 }

  /** The stub: xmm0 from byte 8 on, rdi from byte 72 on, and `nStacks` memory words from byte 120 on. */
  function Stub(block: seq<nat>, nStacks: nat): Entry {
    Entry(seq(6, (i: nat) => Word(block, 9 + i)), seq(8, (i: nat) => Word(block, 1 + i)),
          seq(nStacks, (i: nat) => Word(block, 15 + i)))
  }

  predicate IsFloating(t: FieldType) { t == Base('F') || t == Base('D') }

  /** How many integer registers, floating-point registers and memory words the callee has taken. */
  datatype Cursors = Cursors(i: nat, f: nat, m: nat)

  /** The callee takes the next register of the parameter's class, or the next memory word when the six or eight
      registers are used up. */
  function Take(e: Entry, t: FieldType, c: Cursors): nat {
    if IsFloating(t) then if c.f < 8 then Word(e.fps, c.f) else Word(e.memory, c.m)
    else if c.i < 6 then Word(e.ints, c.i) else Word(e.memory, c.m)
  }

  function After(t: FieldType, c: Cursors): Cursors {
    if IsFloating(t) then if c.f < 8 then c.(f := c.f + 1) else c.(m := c.m + 1)
    else if c.i < 6 then c.(i := c.i + 1) else c.(m := c.m + 1)
  }

  function Receives(e: Entry, ts: seq<FieldType>, c: Cursors): (ws: seq<nat>)
    ensures |ws| == |ts|
  {
    if ts == [] then [] else [Take(e, ts[0], c)] + Receives(e, ts[1..], After(ts[0], c))
  }

  /** The values in the received words, each read by its C type. */
  function Values(ts: seq<FieldType>, ws: seq<nat>, deref: nat -> nat): seq<JavaValue>
    requires |ws| == |ts|
  {
    seq(|ts|, j requires 0 <= j < |ts| => Seen(ts[j], ws[j], deref))
  }

  /** The caller has pushed `vals` on cells `at` to `end - 1`, first argument first; a long or double takes two cells
      and is in the deeper one. */
  ghost predicate Pushed(cells: seq<nat>, at: int, end: int, ts: seq<FieldType>, vals: seq<JavaValue>)
    decreases |ts|
  {
    if ts == [] then vals == [] && at == end
    else
      && vals != [] && 0 <= at < |cells| && Holds(ts[0], cells[at], vals[0])
      && Pushed(cells, at + (if ts[0] == Base('J') || ts[0] == Base('D') then 2 else 1), end, ts[1..], vals[1..])
  }

  // ---------------------------------------------------------------------------------------------
  // The callee's cursors and the caller's counting rule
  // ---------------------------------------------------------------------------------------------

  lemma {:induction false} PushedAt(cells: seq<nat>, at: int, end: int, ts: seq<FieldType>, j: nat,
                                    vals: seq<JavaValue>)
    requires j <= |ts| && Pushed(cells, at, end, ts[j..], vals)
    ensures at == CellIndex(end - 1, ts, j) && |vals| == |ts| - j
    decreases |ts| - j
  {
    if j < |ts| {
      assert ts[j..][1..] == ts[j + 1..];
      PushedAt(cells, at + Slots(ts[j]), end, ts, j + 1, vals[1..]);
    }
  }

  /** Where the callee's cursors stand before parameter j, by the caller's counting rule. */
  function CursorsAt(ts: seq<FieldType>, j: nat): Cursors
    requires j <= |ts|
  {
    Cursors(Least(Integers(ts, j), 6), Least(Sses(ts, j), 8), InMemory(ts, j))
  }

  lemma CursorsMove(ts: seq<FieldType>, j: nat)
    requires j < |ts|
    ensures After(ts[j], CursorsAt(ts, j)) == CursorsAt(ts, j + 1)
    ensures IsFloating(ts[j]) <==> IsSse(ts[j])
  {
    assert IsFloating(ts[j]) <==> IsSse(ts[j]);
  }

  /** The word the callee takes for parameter j is the one the counting rule names. */
  lemma TakesItsWord(block: seq<nat>, ts: seq<FieldType>, j: nat)
    requires j < |ts| && Offset(LocationOf(ts, j)) < |block|
    ensures Take(Stub(block, InMemory(ts, |ts|)), ts[j], CursorsAt(ts, j)) == block[Offset(LocationOf(ts, j))]
  {
    CursorsMove(ts, j);
    CountsGrow(ts, j + 1, |ts|);
  }

  lemma ValuesCons(ts: seq<FieldType>, w: nat, ws: seq<nat>, deref: nat -> nat)
    requires ts != [] && |ws| + 1 == |ts|
    ensures Values(ts, [w] + ws, deref) == [Seen(ts[0], w, deref)] + Values(ts[1..], ws, deref)
  {
  }

  /** The callee takes the word of parameter j and goes on behind it. */
  lemma ReceivesNext(block: seq<nat>, ts: seq<FieldType>, j: nat, deref: nat -> nat)
    requires j < |ts| && Offset(LocationOf(ts, j)) < |block|
    ensures var e, w := Stub(block, InMemory(ts, |ts|)), block[Offset(LocationOf(ts, j))];
            Values(ts[j..], Receives(e, ts[j..], CursorsAt(ts, j)), deref)
            == [Seen(ts[j], w, deref)] + Values(ts[j + 1..], Receives(e, ts[j + 1..], CursorsAt(ts, j + 1)), deref)
  {
    var e, w := Stub(block, InMemory(ts, |ts|)), block[Offset(LocationOf(ts, j))];
    var ws := Receives(e, ts[j + 1..], CursorsAt(ts, j + 1));
    assert ts[j..][1..] == ts[j + 1..];
    TakesItsWord(block, ts, j);
    CursorsMove(ts, j);
    assert Receives(e, ts[j..], CursorsAt(ts, j)) == [w] + ws;
    ValuesCons(ts[j..], w, ws, deref);
  }

  lemma SeesOne(block: seq<nat>, ts: seq<FieldType>, cells: seq<nat>, at: int, end: int, dataAddr: nat, j: nat,
                vals: seq<JavaValue>)
    requires dataAddr > 0 && j < |ts| && WellFormed(ts[j]) && ParamPassed(block, ts, cells, end - 1, dataAddr, j)
    requires Pushed(cells, at, end, ts[j..], vals)
    ensures vals != [] && Pushed(cells, at + Slots(ts[j]), end, ts[j + 1..], vals[1..])
    ensures Seen(ts[j], block[Offset(LocationOf(ts, j))], SlotDeref(cells, dataAddr)) == vals[0]
  {
    PushedAt(cells, at, end, ts, j, vals);
    assert ts[j..][1..] == ts[j + 1..];
    ArgumentRoundTrip(ts[j], block[Offset(LocationOf(ts, j))], cells, at, dataAddr, vals[0]);
  }

  /** From parameter j on, the callee sees what the caller pushed. */
  lemma {:induction false} SeesFrom(block: seq<nat>, ts: seq<FieldType>, cells: seq<nat>, at: int, end: int,
                                    dataAddr: nat, j: nat, vals: seq<JavaValue>)
    requires dataAddr > 0 && j <= |ts| && forall k :: 0 <= k < |ts| ==> WellFormed(ts[k])
    requires PassedUpTo(block, ts, cells, end - 1, dataAddr, |ts|) && Pushed(cells, at, end, ts[j..], vals)
    ensures var e := Stub(block, InMemory(ts, |ts|));
            Values(ts[j..], Receives(e, ts[j..], CursorsAt(ts, j)), SlotDeref(cells, dataAddr)) == vals
    decreases |ts| - j
  {
    if j < |ts| {
      assert ParamPassed(block, ts, cells, end - 1, dataAddr, j);
      SeesOne(block, ts, cells, at, end, dataAddr, j, vals);
      ReceivesNext(block, ts, j, SlotDeref(cells, dataAddr));
      SeesFrom(block, ts, cells, at + Slots(ts[j]), end, dataAddr, j + 1, vals[1..]);
      assert vals == [vals[0]] + vals[1..];
    }
  }

  /** Whatever values the caller has pushed, the callee sees them, in order. */
  ghost predicate CalleeSees(e: Entry, ts: seq<FieldType>, cells: seq<nat>, at: int, end: int, dataAddr: nat) {
    forall vals :: Pushed(cells, at, end, ts, vals) ==>
      Values(ts, Receives(e, ts, Cursors(2, 0, 0)), SlotDeref(cells, dataAddr)) == vals
  }

  /** The callee that starts after environment and receiver recovers every argument, in order, after the walk. */
  lemma CalleeRecoversArguments(block: seq<nat>, ts: seq<FieldType>, cells: seq<nat>, at: int, end: int, dataAddr: nat)
    requires dataAddr > 0 && forall k :: 0 <= k < |ts| ==> WellFormed(ts[k])
    requires PassedUpTo(block, ts, cells, end - 1, dataAddr, |ts|)
    ensures CalleeSees(Stub(block, InMemory(ts, |ts|)), ts, cells, at, end, dataAddr)
  {
    assert ts[0..] == ts;
    forall vals | Pushed(cells, at, end, ts, vals)
      ensures Values(ts, Receives(Stub(block, InMemory(ts, |ts|)), ts, Cursors(2, 0, 0)), SlotDeref(cells, dataAddr))
           == vals
    {
      SeesFrom(block, ts, cells, at, end, dataAddr, 0, vals);
    }
  }

  /** The number of floating-point parameters. */
  function Floating(ts: seq<FieldType>): nat {
    if ts == [] then 0 else (if IsFloating(ts[0]) then 1 else 0) + Floating(ts[1..])
  }

  lemma {:induction false} FloatingIsSses(ts: seq<FieldType>, j: nat)
    requires j <= |ts|
    ensures Sses(ts, j) + Floating(ts[j..]) == Sses(ts, |ts|)
    decreases |ts| - j
  {
    if j < |ts| {
      assert ts[j..][1..] == ts[j + 1..];
      assert IsFloating(ts[j]) <==> IsSse(ts[j]);
      FloatingIsSses(ts, j + 1);
    }
  }
}
