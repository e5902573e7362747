/** Calling a native method from the interpreter on em64t: the operand-stack arguments are spread over the
    integer registers, the floating-point registers and memory, the stack is popped, the result pushed. */
module NativeCall {
  import opened OperandStack
  import opened Descriptors

  /** Layout of the argument block, in words: one spare, eight floating-point, six integer, then memory. */
  const FPS := 1
  const INTS := FPS + MAX_REG_FLOATS
  const STACKS := INTS + MAX_REG_INTS

  /** Whole words in the block: 8 + sizeof(char) + (MAX_REG_FLOATS + sz + 2) * sizeof(uword) bytes. */
  function BlockWords(sz: nat): nat { (8 + 1 + (MAX_REG_FLOATS + sz + 2) * 8) / 8 }

  /** Where the call stub takes a register or memory parameter from. */
  function Offset(loc: Location): nat {
    match loc
    case IntReg(i) => INTS + i
    case FpReg(i) => FPS + i
    case Mem(i) => STACKS + i
  }

  /** The low part of a word read as a two's complement number of the given modulus. */
  function Signed(modulus: nat, w: nat): int
    requires modulus > 0
  {
    var x := w % modulus;
    if x < modulus / 2 then x else x - modulus
  }

  function Extend64(v: int): nat
    requires -B64 <= v
  {
    if v >= 0 then v else v + B64
  }

  /** The word passed for a cell; a non-null reference is passed as the address of its stack slot. */
  function ArgWord(kind: Kind, cell: nat, slotAddr: nat): nat {
    match kind
    case Reference => if cell == 0 then 0 else slotAddr
    case SignExtended => Extend64(Signed(B32, cell))
    case ZeroExtended => cell % B32
    case _ => cell
  }

  /** What the parameter's word holds; only the low half is written for a float. */
  predicate Passed(t: FieldType, w: nat, cell: nat, slotAddr: nat) {
    if TypeKind(t).Float? then w % B32 == cell % B32 else w == ArgWord(TypeKind(t), cell, slotAddr)
  }

  // ---------------------------------------------------------------------------------------------
  // Every write stays inside the block
  // ---------------------------------------------------------------------------------------------

  lemma WriteInsideBlock(ts: seq<FieldType>, j: nat, sz: nat)
    requires j < |ts| && sz >= ArgSlots(ts)
    ensures Offset(LocationOf(ts, j)) < BlockWords(sz) == sz + 11
    ensures LocationOf(ts, j).Mem? ==> LocationOf(ts, j).i + 4 < sz
  {
    CountsAddUp(ts, j);
    SlotsMonotone(ts, 0, |ts|);
  }

  lemma {:induction false} AllInts(n: nat, j: nat)
    requires j <= n
    ensures var ts := seq(n, _ => Base('I')); Integers(ts, j) == j + 2 && Sses(ts, j) == 0 && SlotsBefore(ts, j) == j
  {
    if j > 0 {
      AllInts(n, j - 1);
    }
  }

  /** The bound is tight: n >= 5 int arguments fill the block to its last word. */
  lemma BlockIsTight(n: nat)
    requires n >= 5
    ensures var ts := seq(n, _ => Base('I'));
            && (forall i :: 0 <= i < n ==> WellFormed(ts[i]))
            && ArgSlots(ts) == n && InMemory(ts, n) == n - 4
            && Offset(LocationOf(ts, n - 1)) == BlockWords(n) - 1
  {
    AllInts(n, n);
    AllInts(n, n - 1);
  }

  lemma OffsetsDistinct(ts: seq<FieldType>, j: nat, k: nat)
    requires j < k < |ts|
    ensures Offset(LocationOf(ts, j)) != Offset(LocationOf(ts, k))
  {
    LocationsDistinct(ts, j, k);
  }

  // ---------------------------------------------------------------------------------------------
  // The walk over the descriptor
  // ---------------------------------------------------------------------------------------------

  /** The cell of parameter j: the first parameter is the deepest. */
  ghost function CellIndex(top: int, ts: seq<FieldType>, j: nat): int
    requires j <= |ts|
  {
    top - (ArgSlots(ts) - 1 - SlotsBefore(ts, j))
  }

  /** Parameter i sits where the callee will look for it. */
  ghost predicate ParamPassed(block: seq<nat>, ts: seq<FieldType>, cells: seq<nat>, top: int, dataAddr: nat, i: nat)
    requires i < |ts|
  {
    var at, cell := Offset(LocationOf(ts, i)), CellIndex(top, ts, i);
    at < |block| && 0 <= cell < |cells| && Passed(ts[i], block[at], cells[cell], dataAddr + 8 * cell)
  }

  ghost predicate PassedUpTo(block: seq<nat>, ts: seq<FieldType>, cells: seq<nat>, top: int, dataAddr: nat, j: nat)
    requires j <= |ts|
  {
    forall i :: 0 <= i < j ==> ParamPassed(block, ts, cells, top, dataAddr, i)
  }

  /** Registers and memory counts after j parameters. */
  ghost predicate CountersAt(ts: seq<FieldType>, j: nat, nInts: nat, nFps: nat, nStacks: nat)
    requires j <= |ts|
  {
    && nInts == Least(Integers(ts, j), MAX_REG_INTS)
    && nFps == Least(Sses(ts, j), MAX_REG_FLOATS)
    && nStacks == InMemory(ts, j)
  }

  method PlaceInteger(block: array<nat>, arg: nat, ghost ts: seq<FieldType>, ghost j: nat, ghost nFps: nat,
                      nInts: nat, nStacks: nat) returns (ints: nat, stacks: nat)
    requires j < |ts| && !IsSse(ts[j]) && CountersAt(ts, j, nInts, nFps, nStacks)
    requires Offset(LocationOf(ts, j)) < block.Length
    modifies block
    ensures block[..] == old(block[..])[Offset(LocationOf(ts, j)) := arg]
    ensures CountersAt(ts, j + 1, ints, nFps, stacks)
  {
    ints, stacks := nInts, nStacks;
    if nInts != MAX_REG_INTS {
      block[INTS + nInts] := arg;
      ints := nInts + 1;
    } else {
      block[STACKS + nStacks] := arg;
      stacks := nStacks + 1;
    }
  }

  /** A floating-point parameter; `single` writes only the low half of the word. */
  method PlaceFloating(block: array<nat>, arg: nat, single: bool, ghost ts: seq<FieldType>, ghost j: nat,
                       ghost nInts: nat, nFps: nat, nStacks: nat) returns (fps: nat, stacks: nat)
    requires j < |ts| && IsSse(ts[j]) && CountersAt(ts, j, nInts, nFps, nStacks)
    requires Offset(LocationOf(ts, j)) < block.Length
    modifies block
    ensures var at := Offset(LocationOf(ts, j));
            block[..] == old(block[..])[at := if single then WithLow32(old(block[at]), arg % B32) else arg]
    ensures CountersAt(ts, j + 1, nInts, fps, stacks)
  {
    fps, stacks := nFps, nStacks;
    var at;
    if nFps != MAX_REG_FLOATS {
      at := FPS + nFps;
      fps := nFps + 1;
    } else {
      at := STACKS + nStacks;
      stacks := nStacks + 1;
    }
    block[at] := if single then WithLow32(block[at], arg % B32) else arg;
  }

  /** From inside a class name to its semicolon. */
  method SkipName(desc: string, start: nat, ghost s: string, ghost rest: string) returns (m: nat)
    requires start <= |desc| && desc[start..] == s + rest
    requires s != [] && s[|s| - 1] == ';' && ';' !in s[..|s| - 1]
    ensures m == start + |s| - 1
  {
    assert forall k :: 0 <= k < |s| - 1 ==> s[k] == s[..|s| - 1][k];
    m := start;
    while desc[m] != ';'
      invariant start <= m < start + |s| && start + |s| <= |desc|
      decreases start + |s| - m
    {
      assert desc[m] == desc[start..][m - start] == s[m - start];
      m := m + 1;
    }
    assert desc[m] == desc[start..][m - start] == s[m - start];
  }

  /** From the first character of a type to its last. */
  method SkipType(desc: string, start: nat, ghost t: FieldType, ghost rest: string) returns (m: nat)
    requires WellFormed(t) && start <= |desc| && desc[start..] == Text(t) + rest
    ensures m == start + |Text(t)| - 1
  {
    m := start;
    ghost var u := t;
    while desc[m] == '['
      invariant start <= m <= |desc| && WellFormed(u) && desc[m..] == Text(u) + rest
      invariant m + |Text(u)| == start + |Text(t)|
      invariant m < |desc|
      decreases u
    {
      assert desc[m] == Text(u)[0];
      u := u.component;
      m := m + 1;
    }
    assert desc[m] == Text(u)[0];
    if desc[m] == 'L' {
      ghost var s := Text(u);
      assert s[..|s| - 1] == "L" + u.name;
      m := SkipName(desc, m, s, rest);
    }
  }

  /** Parameter j has just been written: the earlier ones are untouched. */
  lemma StepPassed(before: seq<nat>, after: seq<nat>, ts: seq<FieldType>, cells: seq<nat>, top: int, dataAddr: nat,
                   j: nat)
    requires j < |ts| && PassedUpTo(before, ts, cells, top, dataAddr, j)
    requires |after| == |before| && ParamPassed(after, ts, cells, top, dataAddr, j)
    requires forall k :: 0 <= k < |after| && k != Offset(LocationOf(ts, j)) ==> after[k] == before[k]
    ensures PassedUpTo(after, ts, cells, top, dataAddr, j + 1)
  {
    forall i | 0 <= i < j ensures ParamPassed(after, ts, cells, top, dataAddr, i) {
      OffsetsDistinct(ts, i, j);
      assert ParamPassed(before, ts, cells, top, dataAddr, i);
    }
  }

  /** No parameter is placed over the environment or the receiver. */
  lemma ReceiverKept(ts: seq<FieldType>, j: nat)
    requires j < |ts|
    ensures Offset(LocationOf(ts, j)) != INTS && Offset(LocationOf(ts, j)) != INTS + 1
  {
  }

  /** The text of the next type is at the front of what is left of the descriptor. */
  lemma NextType(desc: string, m: nat, ts: seq<FieldType>, j: nat, tail: string)
    requires m <= |desc| && j < |ts| && desc[m..] == Texts(ts[j..]) + tail
    ensures desc[m..] == Text(ts[j]) + (Texts(ts[j + 1..]) + tail)
    ensures m + |Text(ts[j])| <= |desc| && desc[m + |Text(ts[j])|..] == Texts(ts[j + 1..]) + tail
  {
    assert ts[j..][1..] == ts[j + 1..];
    assert desc[m + |Text(ts[j])|..] == desc[m..][|Text(ts[j])|..];
  }

  lemma HeadOfText(t: FieldType)
    requires WellFormed(t)
    ensures KindOf(Text(t)[0]) == TypeKind(t) && !TypeKind(t).NoKind?
    ensures t.Base? ==> |Text(t)| == 1
    ensures !TypeKind(t).Reference? ==> t.Base?
  {
  }

  /** Pass one parameter: `m` is at the first character of its type, `pos` is its stack offset. */
  method MarshalOne(stack: Stack, desc: string, m: nat, pos: nat, dataAddr: nat, block: array<nat>,
                    nInts: nat, nFps: nat, nStacks: nat, ghost ts: seq<FieldType>, ghost j: nat, ghost rest: string)
    returns (m': nat, pos': int, ints: nat, fps: nat, stacks: nat)
    requires stack.Valid() && block != stack.data && block != stack.refs
    requires j < |ts| && WellFormed(ts[j])
    requires m <= |desc| && desc[m..] == Text(ts[j]) + rest
    requires 0 <= CellIndex(stack.index, ts, j) == stack.index - pos && ArgSlots(ts) + 11 <= block.Length
    requires CountersAt(ts, j, nInts, nFps, nStacks)
    modifies block
    ensures ParamPassed(block[..], ts, stack.data[..], stack.index, dataAddr, j)
    ensures forall k :: 0 <= k < block.Length && k != Offset(LocationOf(ts, j)) ==> block[k] == old(block[k])
    ensures CountersAt(ts, j + 1, ints, fps, stacks)
    ensures m' == m + |Text(ts[j])| - 1 && pos' == pos - Slots(ts[j])
  {
    WriteInsideBlock(ts, j, ArgSlots(ts));
    HeadOfText(ts[j]);
    assert desc[m] == Text(ts[j])[0];
    m', pos', ints, fps, stacks := m, pos - 1, nInts, nFps, nStacks;
    match KindOf(desc[m]) {
      case Reference =>
        var ref := stack.Pick(pos);
        var arg := if ref == 0 then 0 else dataAddr + 8 * (stack.index - pos);
        ints, stacks := PlaceInteger(block, arg, ts, j, nFps, nInts, nStacks);
        m' := SkipType(desc, m, ts[j], rest);
      case SignExtended =>
        ints, stacks := PlaceInteger(block, Extend64(Signed(B32, stack.Pick(pos))), ts, j, nFps, nInts, nStacks);
      case ZeroExtended =>
        ints, stacks := PlaceInteger(block, stack.Pick(pos) % B32, ts, j, nFps, nInts, nStacks);
      case Long =>
        ints, stacks := PlaceInteger(block, stack.GetLong(pos - 1), ts, j, nFps, nInts, nStacks);
        pos' := pos - 2;
      case Float =>
        fps, stacks := PlaceFloating(block, stack.Pick(pos), true, ts, j, nInts, nFps, nStacks);
      case Double =>
        fps, stacks := PlaceFloating(block, stack.GetLong(pos - 1), false, ts, j, nInts, nFps, nStacks);
        pos' := pos - 2;
      case NoKind =>
        assert false;
    }
  }

  /** Where the walk stands before parameter j. */
  ghost predicate WalkAt(desc: string, m: nat, pos: int, ts: seq<FieldType>, j: nat, tail: string) {
    && j <= |ts| && m <= |desc| && desc[m..] == Texts(ts[j..]) + tail
    && pos == ArgSlots(ts) - 1 - SlotsBefore(ts, j)
  }

  lemma WalkStarts(desc: string, ts: seq<FieldType>, ret: string)
    requires desc == "(" + Texts(ts) + ")" + ret
    ensures WalkAt(desc, 1, ArgSlots(ts) - 1, ts, 0, ")" + ret)
  {
    assert ts[0..] == ts;
    assert desc[1..] == Texts(ts) + (")" + ret);
  }

  lemma WalkGoesOn(desc: string, m: nat, pos: int, ts: seq<FieldType>, j: nat, tail: string)
    requires WalkAt(desc, m, pos, ts, j, tail)
    ensures pos >= 0 <==> j < |ts|
    ensures j < |ts| ==>
              && desc[m..] == Text(ts[j]) + (Texts(ts[j + 1..]) + tail)
              && WalkAt(desc, m + |Text(ts[j])|, pos - Slots(ts[j]), ts, j + 1, tail)
  {
    SlotsMonotone(ts, j, |ts|);
    if j < |ts| { NextType(desc, m, ts, j, tail); }
  }

  lemma WalkEnds(desc: string, m: nat, pos: int, ts: seq<FieldType>, ret: string)
    requires desc == "(" + Texts(ts) + ")" + ret && WalkAt(desc, m, pos, ts, |ts|, ")" + ret)
    ensures m == 1 + |Texts(ts)| < |desc| && desc[m] == ')'
  {
    assert ts[|ts|..] == [];
    assert desc[m] == desc[m..][0];
  }

  /** Pass parameter j after those before it. */
  method MarshalNext(stack: Stack, desc: string, m: nat, pos: nat, dataAddr: nat, block: array<nat>,
                     nInts: nat, nFps: nat, nStacks: nat, ghost ts: seq<FieldType>, ghost j: nat, ghost tail: string)
    returns (m': nat, pos': int, ints: nat, fps: nat, stacks: nat)
    requires stack.Valid() && block != stack.data && block != stack.refs
    requires j < |ts| && WellFormed(ts[j]) && WalkAt(desc, m, pos, ts, j, tail)
    requires ArgSlots(ts) - 1 <= stack.index && ArgSlots(ts) + 11 <= block.Length
    requires CountersAt(ts, j, nInts, nFps, nStacks)
    requires PassedUpTo(block[..], ts, stack.data[..], stack.index, dataAddr, j)
    modifies block
    ensures PassedUpTo(block[..], ts, stack.data[..], stack.index, dataAddr, j + 1)
    ensures block[INTS] == old(block[INTS]) && block[INTS + 1] == old(block[INTS + 1])
    ensures CountersAt(ts, j + 1, ints, fps, stacks)
    ensures WalkAt(desc, m', pos', ts, j + 1, tail)
  {
    WalkGoesOn(desc, m, pos, ts, j, tail);
    ghost var before := block[..];
    m', pos', ints, fps, stacks :=
      MarshalOne(stack, desc, m, pos, dataAddr, block, nInts, nFps, nStacks, ts, j, Texts(ts[j + 1..]) + tail);
    assert forall k :: 0 <= k < block.Length && k != Offset(LocationOf(ts, j)) ==> block[k] == before[k];
    StepPassed(before, block[..], ts, stack.data[..], stack.index, dataAddr, j);
    ReceiverKept(ts, j);
    m' := m' + 1;
  }

  /** The descriptor walk of the static path (first offset sz - 1) and of the virtual one (sz - 2). */
  method MarshalArguments(stack: Stack, desc: string, firstPos: int, env: nat, self: nat, dataAddr: nat,
                          block: array<nat>, ghost ts: seq<FieldType>, ghost ret: string)
    returns (nFps: nat, nStacks: nat, m: nat)
    requires stack.Valid() && block != stack.data && block != stack.refs
    requires forall i :: 0 <= i < |ts| ==> WellFormed(ts[i])
    requires desc == "(" + Texts(ts) + ")" + ret
    requires firstPos == ArgSlots(ts) - 1 <= stack.index
    requires BlockWords(ArgSlots(ts)) <= block.Length
    modifies block
    ensures PassedUpTo(block[..], ts, stack.data[..], stack.index, dataAddr, |ts|)
    ensures block[INTS] == env && block[INTS + 1] == self
    ensures nFps == Least(Sses(ts, |ts|), MAX_REG_FLOATS) && nStacks == InMemory(ts, |ts|)
    ensures m == 1 + |Texts(ts)| < |desc| && desc[m] == ')'
  {
    var nInts := 0;
    nFps, nStacks := 0, 0;
    block[INTS + nInts] := env;
    nInts := nInts + 1;
    block[INTS + nInts] := self;
    nInts := nInts + 1;
    m := 1;
    var pos := firstPos;
    ghost var j := 0;
    ghost var tail := ")" + ret;
    WalkStarts(desc, ts, ret);
    WalkGoesOn(desc, m, pos, ts, j, tail);
    while pos >= 0
      invariant WalkAt(desc, m, pos, ts, j, tail) && (pos >= 0 <==> j < |ts|)
      invariant CountersAt(ts, j, nInts, nFps, nStacks)
      invariant PassedUpTo(block[..], ts, stack.data[..], stack.index, dataAddr, j)
      invariant block[INTS] == env && block[INTS + 1] == self
      decreases |ts| - j
    {
      m, pos, nInts, nFps, nStacks :=
        MarshalNext(stack, desc, m, pos, dataAddr, block, nInts, nFps, nStacks, ts, j, tail);
      j := j + 1;
      WalkGoesOn(desc, m, pos, ts, j, tail);
    }
    WalkEnds(desc, m, pos, ts, ret);
  }
}
