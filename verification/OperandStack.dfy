/** The operand stack of an interpreted frame: 64-bit cells with a tag byte each, as on em64t with
    uncompressed references. A long or double takes two cells and lives in the deeper one. */
module OperandStack {

  const FLAG_NONE := 0
  const FLAG_OBJECT := 3

  const B8 := 0x100
  const B16 := 0x1_0000
  const B32 := 0x1_0000_0000
  const B64 := 0x1_0000_0000_0000_0000

  /** Replace the low 32 bits of a cell, as an assignment to a 32-bit member of the union does. */
  function WithLow32(cell: nat, low: nat): (r: nat)
    requires low < B32
    ensures r % B32 == low
  {
    cell / B32 * B32 + low
  }

  class Stack {
    const data: array<nat>
    const refs: array<nat>
    var index: int

    ghost predicate Valid()
      reads this
    {
      data.Length == refs.Length && data != refs && -1 <= index < data.Length
    }

    /** The invariant the garbage collector relies on: nothing above the top is tagged. */
    ghost predicate ClearAbove()
      reads this, refs
      requires Valid()
    {
      forall k :: index < k < refs.Length ==> refs[k] == FLAG_NONE
    }

    constructor (size: nat)
      ensures Valid() && ClearAbove() && index == -1 && data.Length == size
      ensures fresh(data) && fresh(refs)
    {
      data := new nat[size];
      refs := new nat[size](_ => FLAG_NONE);
      index := -1;
    }

    function Pick(offset: int): nat
      reads this, data
      requires Valid() && 0 <= index - offset < data.Length
    {
      data[index - offset]
    }

    /** The long whose lower slot is at `idx`: its bits are in the deeper slot. */
    function GetLong(idx: int): nat
      reads this, data
      requires Valid() && 0 <= index - (idx + 1) < data.Length
    {
      Pick(idx + 1)
    }

    method Push(off: nat)
      requires Valid() && index + off < data.Length
      modifies this`index
      ensures Valid() && index == old(index) + off
    {
      index := index + off;
    }

    method PopClearRef(off: nat)
      requires Valid() && index - off >= -1
      modifies this`index, refs
      ensures Valid() && index == old(index) - off
      ensures old(ClearAbove()) ==> ClearAbove()
      ensures forall k :: 0 <= k <= index ==> refs[k] == old(refs[k])
    {
      var i := 0;
      while i < off
        invariant 0 <= i <= off && index == old(index)
        invariant forall k :: 0 <= k < refs.Length ==>
                    refs[k] == if index - i < k <= index then FLAG_NONE else old(refs[k])
      {
        refs[index - i] := FLAG_NONE;
        i := i + 1;
      }
      index := index - off;
    }

    method SetLow32(low: nat)
      requires Valid() && index >= 0 && low < B32
      modifies data
      ensures forall k :: 0 <= k < data.Length && k != index ==> data[k] == old(data[k])
      ensures data[index] % B32 == low
    {
      data[index] := WithLow32(data[index], low);
    }

    method SetLong(idx: nat, bits: nat)
      requires Valid() && 0 <= index - (idx + 1)
      modifies data
      ensures data[..] == old(data[..])[index - (idx + 1) := bits]
    {
      data[index - (idx + 1)] := bits;
    }
  }
}
