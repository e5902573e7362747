/** The table managers as the source runs them: search loops over arrays updated in place, 32-bit counters. */
module TnvTableManager {
  import opened TopNValue

  /** The first slot that holds the value, or -1. */
  method Find(where: array<Entry>, v: nat) returns (index: int)
    ensures index == FindValue(where[..], v)
  {
    var i := 0;
    while i < where.Length
      invariant 0 <= i <= where.Length
      invariant forall j :: 0 <= j < i ==> where[j].value != v
    {
      if where[i].value == v {
        return i;
      }
      i := i + 1;
    }
    return -1;
  }

  /** The first slot of least frequency; stops early at a cleared slot. */
  method FindMinIdx(where: array<Entry>) returns (min: nat)
    requires where.Length > 0
    ensures min == MinIdx(where[..])
  {
    min := 0;
    var minFreq := where[min].freq;
    var i := 0;
    while i < where.Length
      invariant 0 <= i <= where.Length && min < where.Length && minFreq == where[min].freq
      invariant i == 0 ==> min == 0
      invariant 0 < i ==> min < i
      invariant forall j :: 0 <= j < i ==> 0 < where[j].freq
      invariant forall j :: 0 <= j < i ==> minFreq <= where[j].freq
      invariant forall j :: 0 <= j < min ==> minFreq < where[j].freq
    {
      if where[i].freq == 0 {
        return i;
      }
      if where[i].freq < minFreq {
        minFreq := where[i].freq;
        min := i;
      }
      i := i + 1;
    }
  }

  method FindTop(where: array<Entry>) returns (value: nat)
    requires where.Length > 0
    ensures value == FindMax(where[..])
  {
    value := 0;
    var maxFreq := 0;
    ghost var at := 0;
    var i := 0;
    while i < where.Length
      invariant 0 <= i <= where.Length && at < where.Length
      invariant forall j :: 0 <= j < i ==> where[j].freq <= maxFreq
      invariant if maxFreq == 0 then value == 0
                else at < i && where[at] == Entry(value, maxFreq) && forall j :: 0 <= j < at ==> where[j].freq < maxFreq
    {
      if where[i].freq > maxFreq {
        maxFreq := where[i].freq;
        value := where[i].value;
        at := i;
      }
      i := i + 1;
    }
    if maxFreq > 0 {
      assert MaxIdx(where[..]) == at;
    }
  }

  method ClearTopElements(where: array<Entry>)
    modifies where
    ensures where[..] == Cleared(old(where[..]))
  {
    var i := 0;
    while i < where.Length
      invariant 0 <= i <= where.Length
      invariant forall j :: 0 <= j < i ==> where[j] == Entry(old(where[j].value), 0)
      invariant forall j :: i <= j < where.Length ==> where[j] == old(where[j])
    {
      where[i] := Entry(where[i].value, 0);
      i := i + 1;
    }
  }

  method ReplaceMin(where: array<Entry>, e: Entry)
    requires where.Length > 0
    modifies where
    ensures where[..] == PutIfMore(old(where[..]), e)
  {
    var min := FindMinIdx(where);
    if e.freq > where[min].freq {
      where[min] := e;
    }
  }

  class InstructionProfile {
    const steady: array<Entry>
    const clear: array<Entry>
    var lastValue: nat
    var numTimes: nat
    var tick: nat

    ghost function View(): Profile
      reads this, steady, clear
    {
      Profile(steady[..], clear[..], lastValue, numTimes, tick)
    }

    ghost predicate Valid(mgr: Manager) {
      steady != clear && steady.Length > 0 && (mgr.Divided? ==> clear.Length > 0)
    }

    constructor (steadySize: nat, clearSize: nat)
      ensures View() == Initial(steadySize, clearSize)
      ensures fresh(steady) && fresh(clear) && steady != clear
    {
      steady := new Entry[steadySize](_ => Entry(0, 0));
      clear := new Entry[clearSize](_ => Entry(0, 0));
      lastValue, numTimes, tick := 0, 0, 0;
    }

    method InsertFirstN(v: nat, times: nat)
      requires Valid(FirstN)
      modifies steady
      ensures View() == Insert(Bits32, FirstN, old(View()), v, times)
    {
      var index := Find(steady, v);
      if index != -1 && steady[index].freq != 0 {
        steady[index] := Entry(steady[index].value, Plus(Bits32, steady[index].freq, times));
      } else {
        var min := FindMinIdx(steady);
        if times > steady[min].freq {
          steady[min] := Entry(v, times);
        }
      }
    }

    method InsertDivided(mgr: Manager, v: nat, times: nat)
      requires mgr.Divided? && Valid(mgr)
      modifies steady, clear
      ensures View() == Insert(Bits32, mgr, old(View()), v, times)
    {
      var index := Find(steady, v);
      if index != -1 && steady[index].freq != 0 {
        steady[index] := Entry(steady[index].value, Plus(Bits32, steady[index].freq, times));
        return;
      }
      index := Find(clear, v);
      var min := FindMinIdx(steady);
      var ousted := steady[min];
      if index != -1 {
        PromoteOrCount(index, min, times);
      } else if times > ousted.freq {
        steady[min] := Entry(v, times);
        ReplaceMin(clear, ousted);
      } else {
        ReplaceMin(clear, Entry(v, times));
      }
    }

    /** The value is in slot `index` of the clear part: count it there, or move it to steady slot `min`. */
    method PromoteOrCount(index: nat, min: nat, times: nat)
      requires steady != clear && index < clear.Length && min < steady.Length
      modifies steady, clear
      ensures var was, ousted := old(clear[index]), old(steady[min]);
              var f := Plus(Bits32, was.freq, times);
              if f > ousted.freq then
                && steady[..] == old(steady[..])[min := Entry(was.value, f)]
                && clear[..] == PutIfMore(old(clear[..])[index := Entry(was.value, 0)], ousted)
              else steady[..] == old(steady[..]) && clear[..] == old(clear[..])[index := Entry(was.value, f)]
    {
      var ousted := steady[min];
      clear[index] := Entry(clear[index].value, Plus(Bits32, clear[index].freq, times));
      if clear[index].freq > ousted.freq {
        steady[min] := clear[index];
        clear[index] := Entry(clear[index].value, 0);
        assert clear[..] == old(clear[..])[index := Entry(clear[index].value, 0)];
        ReplaceMin(clear, ousted);
      }
    }

    method InsertValue(mgr: Manager, v: nat, times: nat)
      requires Valid(mgr)
      modifies steady, clear
      ensures View() == Insert(Bits32, mgr, old(View()), v, times)
    {
      match mgr
      case FirstN => InsertFirstN(v, times);
      case Divided(_) => InsertDivided(mgr, v, times);
    }

    method FlushLastValueCounter(mgr: Manager)
      requires Valid(mgr)
      modifies this`numTimes, steady, clear
      ensures View() == Flush(Bits32, mgr, old(View()))
    {
      InsertValue(mgr, lastValue, numTimes);
      numTimes := 0;
    }

    method AdvanceTick(mgr: Manager)
      requires Valid(mgr)
      modifies this`tick, clear
      ensures View() == Tick(Bits32, mgr, old(View()))
    {
      if mgr.Divided? {
        if tick == mgr.clearInterval {
          tick := 0;
          ClearTopElements(clear);
        }
        tick := Plus(Bits32, tick, 1);
      }
    }

    method AddValue(mgr: Manager, v: nat)
      requires Valid(mgr)
      modifies this, steady, clear
      ensures View() == AddNewValue(Bits32, mgr, old(View()), v)
    {
      AdvanceTick(mgr);
      if v == lastValue {
        numTimes := Plus(Bits32, numTimes, 1);
      } else {
        FlushLastValueCounter(mgr);
        numTimes := 1;
        InsertValue(mgr, v, numTimes);
        lastValue := v;
      }
    }

    method GetTopValue(mgr: Manager) returns (result: nat)
      requires Valid(mgr)
      modifies this`numTimes, steady, clear
      ensures View() == Flush(Bits32, mgr, old(View()))
      ensures result == FindMax(View().steady)
    {
      FlushLastValueCounter(mgr);
      result := FindTop(steady);
    }
  }
}
