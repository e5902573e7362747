/** The counters of an edge profile: sorted keys, a counter array, and a binary search from key to counter. */
module EdgeCounters {
  import opened Wrappers

  ghost predicate Ascending(s: seq<nat>) {
    forall i, j :: 0 <= i < j < |s| ==> s[i] < s[j]
  }

  ghost predicate Sorted(s: seq<nat>) {
    forall i, j :: 0 <= i < j < |s| ==> s[i] <= s[j]
  }

  ghost predicate DistinctKeys(s: seq<nat>) {
    forall i, j :: 0 <= i < j < |s| ==> s[i] != s[j]
  }

  /** `std::lower_bound`: the first position whose key is not below `key`. */
  method LowerBound(keys: seq<nat>, key: nat) returns (pos: nat)
    requires Sorted(keys)
    ensures pos <= |keys|
    ensures forall i :: 0 <= i < pos ==> keys[i] < key
    ensures forall i :: pos <= i < |keys| ==> key <= keys[i]
  {
    var count := |keys|;
    pos := 0;
    while count > 0
      invariant 0 <= count && pos + count <= |keys|
      invariant forall i :: 0 <= i < pos ==> keys[i] < key
      invariant forall i :: pos + count <= i < |keys| ==> key <= keys[i]
    {
      var half := count / 2;
      if keys[pos + half] < key {
        pos := pos + half + 1;
        count := count - half - 1;
      } else {
        count := half;
      }
    }
  }

  function InsertKey(s: seq<nat>, k: nat): (r: seq<nat>)
    requires Ascending(s) && k !in s
    ensures |r| == |s| + 1
    ensures forall x :: x in r <==> x in s || x == k
    ensures Ascending(r)
  {
    if s == [] then [k]
    else if k < s[0] then [k] + s
    else
      assert s == [s[0]] + s[1..];
      var t := InsertKey(s[1..], k);
      assert forall i :: 0 <= i < |t| ==> t[i] in t;
      [s[0]] + t
  }

  /** Any sorting algorithm: distinct keys in ascending order. */
  function SortedKeys(keys: seq<nat>): (r: seq<nat>)
    requires DistinctKeys(keys)
    ensures Ascending(r) && |r| == |keys|
    ensures forall x :: x in r <==> x in keys
  {
    if keys == [] then [] else
      assert keys == keys[..|keys| - 1] + [keys[|keys| - 1]];
      InsertKey(SortedKeys(keys[..|keys| - 1]), keys[|keys| - 1])
  }

  ghost function PositionOf(s: seq<nat>, k: nat): (i: nat)
    requires k in s
    ensures i < |s| && s[i] == k
  {
    var i :| 0 <= i < |s| && s[i] == k; i
  }

  class EdgeMethodProfile {
    const cntMap: seq<nat>
    const counters: array<nat>
    var entryCounter: nat

    ghost predicate Valid()
    {
      Ascending(cntMap) && counters.Length == |cntMap|
    }

    /** The abstract profile: a count for every key. */
    ghost function Counts(): map<nat, nat>
      reads counters
      requires Valid()
    {
      map k | k in cntMap :: counters[PositionOf(cntMap, k)]
    }

    constructor (keys: seq<nat>)
      requires DistinctKeys(keys)
      ensures Valid() && fresh(counters) && entryCounter == 0
      ensures Counts() == map k | k in keys :: 0
    {
      cntMap := SortedKeys(keys);
      counters := new nat[|keys|](_ => 0);
      entryCounter := 0;
    }

    /** The counter position of a key: a bijection from keys to positions, none for any other key. */
    method GetCounter(key: nat) returns (pos: Option<nat>)
      requires Valid()
      ensures pos.Some? <==> key in cntMap
      ensures pos.Some? ==> pos.value < counters.Length && cntMap[pos.value] == key
      ensures pos.Some? ==> pos.value == PositionOf(cntMap, key)
    {
      var it := LowerBound(cntMap, key);
      if it == |cntMap| || cntMap[it] != key {
        return None;
      }
      return Some(it);
    }

    /** Compiled code bumps the counter whose address it was given. */
    method Bump(key: nat) returns (ok: bool)
      requires Valid()
      modifies counters
      ensures ok <==> key in cntMap
      ensures Counts() == if ok then old(Counts())[key := (old(Counts())[key] + 1) % 0x1_0000_0000] else old(Counts())
    {
      var pos := GetCounter(key);
      ok := pos.Some?;
      if ok {
        counters[pos.value] := (counters[pos.value] + 1) % 0x1_0000_0000;
      }
    }

    method IsMethodHot(eThreshold: nat, bThreshold: nat) returns (hot: bool)
      requires Valid()
      ensures hot <==> entryCounter >= eThreshold || exists k :: k in Counts() && Counts()[k] >= bThreshold
    {
      if entryCounter >= eThreshold {
        return true;
      }
      var i := 0;
      while i < counters.Length
        invariant 0 <= i <= counters.Length
        invariant forall j :: 0 <= j < i ==> counters[j] < bThreshold
      {
        if counters[i] >= bThreshold {
          assert cntMap[i] in Counts();
          return true;
        }
        i := i + 1;
      }
      return false;
    }
  }
}
