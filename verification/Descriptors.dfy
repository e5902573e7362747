/** Method descriptors (section 4.3.3 of the Java Virtual Machine Specification, 2nd edition) and where the
    System V AMD64 ABI (section 3.2.3) puts the parameters of the native function they describe. */
module Descriptors {

  datatype FieldType = Base(c: char) | Object(name: string) | Array(component: FieldType)

  datatype Kind = Reference | SignExtended | ZeroExtended | Long | Float | Double | NoKind

  function KindOf(c: char): Kind {
    match c
    case 'L' => Reference
    case '[' => Reference
    case 'S' => SignExtended
    case 'B' => SignExtended
    case 'I' => SignExtended
    case 'Z' => ZeroExtended
    case 'C' => ZeroExtended
    case 'J' => Long
    case 'F' => Float
    case 'D' => Double
    case _ => NoKind
  }

  predicate WellFormed(t: FieldType) {
    match t
    case Base(c) => !KindOf(c).NoKind? && !KindOf(c).Reference?
    case Object(name) => ';' !in name
    case Array(component) => WellFormed(component)
  }

  function Text(t: FieldType): (s: string)
    ensures s != []
  {
    match t
    case Base(c) => [c]
    case Object(name) => "L" + name + ";"
    case Array(component) => "[" + Text(component)
  }

  function Texts(ts: seq<FieldType>): string {
    if ts == [] then [] else Text(ts[0]) + Texts(ts[1..])
  }

  function TypeKind(t: FieldType): Kind {
    if t.Base? then KindOf(t.c) else Reference
  }

  function Slots(t: FieldType): nat {
    if TypeKind(t).Long? || TypeKind(t).Double? then 2 else 1
  }

  function SlotsBefore(ts: seq<FieldType>, j: nat): (n: nat)
    requires j <= |ts|
    ensures n >= j
  {
    if j == 0 then 0 else SlotsBefore(ts, j - 1) + Slots(ts[j - 1])
  }

  function ArgSlots(ts: seq<FieldType>): nat { SlotsBefore(ts, |ts|) }

  lemma {:induction false} SlotsMonotone(ts: seq<FieldType>, j: nat, k: nat)
    requires j <= k <= |ts|
    ensures SlotsBefore(ts, j) + (k - j) <= SlotsBefore(ts, k)
    decreases k - j
  {
    if j < k {
      SlotsMonotone(ts, j, k - 1);
    }
  }

  // ---------------------------------------------------------------------------------------------
  // The callee's view: classes INTEGER and SSE, six and eight registers, then memory in order
  // ---------------------------------------------------------------------------------------------

  const MAX_REG_INTS := 6
  const MAX_REG_FLOATS := 8

  datatype Location = IntReg(i: nat) | FpReg(i: nat) | Mem(i: nat)

  predicate IsSse(t: FieldType) { TypeKind(t).Float? || TypeKind(t).Double? }

  /** INTEGER parameters before parameter j, the environment and the receiver included. */
  function Integers(ts: seq<FieldType>, j: nat): (n: nat)
    requires j <= |ts|
    ensures n >= 2
  {
    if j == 0 then 2 else Integers(ts, j - 1) + if IsSse(ts[j - 1]) then 0 else 1
  }

  function Sses(ts: seq<FieldType>, j: nat): nat
    requires j <= |ts|
  {
    if j == 0 then 0 else Sses(ts, j - 1) + if IsSse(ts[j - 1]) then 1 else 0
  }

  function Excess(n: nat, limit: nat): nat { if n > limit then n - limit else 0 }

  function Least(a: nat, b: nat): nat { if a < b then a else b }

  /** Memory parameters before parameter j: those of either class beyond its registers. */
  function InMemory(ts: seq<FieldType>, j: nat): nat
    requires j <= |ts|
  {
    Excess(Integers(ts, j), MAX_REG_INTS) + Excess(Sses(ts, j), MAX_REG_FLOATS)
  }

  function LocationOf(ts: seq<FieldType>, j: nat): Location
    requires j < |ts|
  {
    if IsSse(ts[j]) then
      if Sses(ts, j) < MAX_REG_FLOATS then FpReg(Sses(ts, j)) else Mem(InMemory(ts, j))
    else
      if Integers(ts, j) < MAX_REG_INTS then IntReg(Integers(ts, j)) else Mem(InMemory(ts, j))
  }

  lemma {:induction false} CountsAddUp(ts: seq<FieldType>, j: nat)
    requires j <= |ts|
    ensures Integers(ts, j) + Sses(ts, j) == j + 2
  {
    if j > 0 {
      CountsAddUp(ts, j - 1);
    }
  }

  lemma {:induction false} CountsGrow(ts: seq<FieldType>, j: nat, k: nat)
    requires j <= k <= |ts|
    ensures Integers(ts, j) <= Integers(ts, k) && Sses(ts, j) <= Sses(ts, k)
    decreases k - j
  {
    if j < k {
      CountsGrow(ts, j, k - 1);
    }
  }

  /** No two parameters share a location. */
  lemma LocationsDistinct(ts: seq<FieldType>, j: nat, k: nat)
    requires j < k < |ts|
    ensures LocationOf(ts, j) != LocationOf(ts, k)
  {
    CountsGrow(ts, j + 1, k);
  }
}
