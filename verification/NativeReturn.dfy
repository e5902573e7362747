/** A whole native call: the block handed to the stub and the result the interpreter pushes. */
module NativeReturn {
  import opened OperandStack
  import opened Descriptors
  import opened NativeCall
  import opened NativeCallee

  // ---------------------------------------------------------------------------------------------
  // The result
  // ---------------------------------------------------------------------------------------------

  datatype ReturnType = Void | Returns(t: FieldType)

  function ReturnSlots(r: ReturnType): nat { if r.Void? then 0 else Slots(r.t) }

  function ReturnText(r: ReturnType): string { if r.Void? then "V" else Text(r.t) }

  function Low32(v: int): (r: nat)
    requires -B32 <= v < B32
    ensures r < B32
  {
    if v >= 0 then v else v + B32
  }

  /** The low half of the cell for a result of a type that fits 32 bits. */
  function ResultLow(c: char, raw: nat): (r: nat)
    ensures r < B32
  {
    match c
    case 'Z' => Low32(Signed(B8, raw))
    case 'B' => Low32(Signed(B8, raw))
    case 'C' => raw % B16
    case 'S' => Low32(Signed(B16, raw))
    case _ => raw % B32
  }

  lemma LowHolds(t: FieldType, cell: nat, raw: nat, deref: nat -> nat)
    requires WellFormed(t) && t.Base? && t.c != 'J' && t.c != 'D' && cell % B32 == ResultLow(t.c, raw)
    ensures Holds(t, cell, Seen(t, raw, deref)) <==> (t.c == 'Z' ==> raw % B8 <= 1)
  {
  }

  /** Objects and arrays are tagged as such, anything else is not. */
  ghost predicate TaggedFor(ret: ReturnType, tag: nat) {
    && (tag == FLAG_OBJECT <==> ret.Returns? && (ret.t.Object? || ret.t.Array?))
    && (tag == FLAG_NONE <==> ret.Void? || ret.t.Base?)
  }

  /** The cell holds the value native code returned in `raw`; for a boolean only if the byte is 0 or 1. */
  ghost predicate ResultHeld(t: FieldType, cell: nat, raw: nat, target: nat) {
    Holds(t, cell, Seen(t, raw, _ => target)) <==> (t == Base('Z') ==> raw % B8 <= 1)
  }

  /** Push the result word `raw`; `target` is what a non-null reference result points to, `junk` the
      indeterminate upper half of an int or float result. */
  method PushResult(stack: Stack, ret: ReturnType, raw: nat, target: nat, junk: nat)
    requires stack.Valid() && stack.ClearAbove() && stack.index + ReturnSlots(ret) < stack.data.Length
    requires ret.Returns? ==> WellFormed(ret.t)
    modifies stack`index, stack.data, stack.refs
    ensures stack.Valid() && stack.ClearAbove() && stack.index == old(stack.index) + ReturnSlots(ret)
    ensures forall k :: 0 <= k <= old(stack.index) ==>
              stack.data[k] == old(stack.data[k]) && stack.refs[k] == old(stack.refs[k])
    ensures forall k :: old(stack.index) < k <= stack.index ==> TaggedFor(ret, stack.refs[k])
    ensures ret.Returns? ==> ResultHeld(ret.t, stack.data[old(stack.index) + 1], raw, target)
  {
    if ret.Void? {
      return;
    }
    var c := Text(ret.t)[0];
    HeadOfText(ret.t);
    var kind := KindOf(c);
    if kind.Reference? {
      stack.Push(1);
      stack.data[stack.index] := if raw != 0 then target else 0;
      stack.refs[stack.index] := FLAG_OBJECT;
    } else if kind.Long? || kind.Double? {
      stack.Push(2);
      stack.SetLong(0, raw);
    } else {
      stack.Push(1);
      if c == 'I' || c == 'F' {
        stack.data[stack.index] := WithLow32(junk, ResultLow(c, raw));
      } else {
        stack.SetLow32(ResultLow(c, raw));
      }
      LowHolds(ret.t, stack.data[stack.index], raw, _ => target);
    }
  }

  /** After the call: the `sz` argument slots are replaced by the result. */
  method ReplaceArguments(stack: Stack, sz: nat, ret: ReturnType, raw: nat, target: nat, junk: nat)
    requires stack.Valid() && stack.ClearAbove() && (ret.Returns? ==> WellFormed(ret.t))
    requires -1 <= stack.index - sz && stack.index - sz + ReturnSlots(ret) < stack.data.Length
    modifies stack`index, stack.data, stack.refs
    ensures stack.Valid() && stack.ClearAbove()
    ensures var base := old(stack.index) - sz;
            && stack.index == base + ReturnSlots(ret)
            && (forall k :: 0 <= k <= base ==>
                  stack.data[k] == old(stack.data[k]) && stack.refs[k] == old(stack.refs[k]))
            && (forall k :: base < k <= stack.index ==> TaggedFor(ret, stack.refs[k]))
            && (ret.Returns? ==> ResultHeld(ret.t, stack.data[base + 1], raw, target))
  {
    stack.PopClearRef(sz);
    PushResult(stack, ret, raw, target, junk);
  }

  /** What the native function gets through the stub: environment, receiver, and the pushed arguments in order. */
  ghost predicate BlockReady(block: seq<nat>, nFps: nat, nStacks: nat, ts: seq<FieldType>,
                             cells: seq<nat>, at: int, end: int, dataAddr: nat, env: nat, self: nat) {
    var e := Stub(block, nStacks);
    && e.ints[0] == env && e.ints[1] == self
    && CalleeSees(e, ts, cells, at, end, dataAddr)
    && nFps == (if Floating(ts) < 8 then Floating(ts) else 8)
  }

  /** Allocate the block and fill it; the operand stack is only read. */
  method PassArguments(stack: Stack, desc: string, isStatic: bool, sz: nat, env: nat, self: nat, dataAddr: nat,
                       ghost ts: seq<FieldType>, ghost ret: string)
    returns (block: array<nat>, nFps: nat, nStacks: nat)
    requires stack.Valid() && dataAddr > 0 && forall i :: 0 <= i < |ts| ==> WellFormed(ts[i])
    requires desc == "(" + Texts(ts) + ")" + ret
    requires sz == ArgSlots(ts) + (if isStatic then 0 else 1) <= stack.index + 1
    ensures fresh(block) && block.Length == BlockWords(sz)
    ensures BlockReady(block[..], nFps, nStacks, ts, stack.data[..],
                       stack.index - sz + (if isStatic then 1 else 2), stack.index + 1, dataAddr, env, self)
  {
    block := new nat[BlockWords(sz)];
    var firstPos, m := if isStatic then sz - 1 else sz - 2, 0;
    nFps, nStacks, m := MarshalArguments(stack, desc, firstPos, env, self, dataAddr, block, ts, ret);
    CalleeRecoversArguments(block[..], ts, stack.data[..], stack.index - sz + (if isStatic then 1 else 2),
                            stack.index + 1, dataAddr);
    FloatingIsSses(ts, 0);
    assert ts[0..] == ts;
  }

  /** A native call, static or virtual. `resolved` is false when no native function is found; `env` and `self`
      are the words for the environment and the receiver or class handle, `block` what the stub is given. */
  method InvokeNative(stack: Stack, desc: string, isStatic: bool, sz: nat, resolved: bool,
                      env: nat, self: nat, dataAddr: nat,
                      ret: ReturnType, raw: nat, target: nat, junk: nat, ghost ts: seq<FieldType>)
    returns (ghost block: seq<nat>, nFps: nat, nStacks: nat)
    requires stack.Valid() && stack.ClearAbove() && dataAddr > 0
    requires (forall i :: 0 <= i < |ts| ==> WellFormed(ts[i])) && (ret.Returns? ==> WellFormed(ret.t))
    requires desc == "(" + Texts(ts) + ")" + ReturnText(ret)
    requires sz == ArgSlots(ts) + (if isStatic then 0 else 1)
    requires -1 <= stack.index - sz && stack.index - sz + ReturnSlots(ret) < stack.data.Length
    modifies stack`index, stack.data, stack.refs
    ensures stack.Valid() && stack.ClearAbove()
    ensures !resolved ==> unchanged(stack) && unchanged(stack.data) && unchanged(stack.refs)
    ensures resolved ==>
              && |block| == BlockWords(sz)
              && BlockReady(block, nFps, nStacks, ts, old(stack.data[..]),
                            old(stack.index) - sz + (if isStatic then 1 else 2), old(stack.index) + 1,
                            dataAddr, env, self)
    ensures resolved ==>
              var base := old(stack.index) - sz;
              && stack.index == base + ReturnSlots(ret)
              && (forall k :: 0 <= k <= base ==>
                    stack.data[k] == old(stack.data[k]) && stack.refs[k] == old(stack.refs[k]))
              && (forall k :: base < k <= stack.index ==> TaggedFor(ret, stack.refs[k]))
              && (ret.Returns? ==> ResultHeld(ret.t, stack.data[base + 1], raw, target))
  {
    nFps, nStacks, block := 0, 0, [];
    if !resolved {
      return;
    }
    var args;
    args, nFps, nStacks := PassArguments(stack, desc, isStatic, sz, env, self, dataAddr, ts, ReturnText(ret));
    block := args[..];
    assert stack.data[..] == old(stack.data[..]);
    ReplaceArguments(stack, sz, ret, raw, target, junk);
  }
}
