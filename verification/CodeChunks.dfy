/** Registered code ranges and the ordered sequence that the method lookup table keeps of them. */
module CodeChunks {

  /** One registered range [codeAddr, codeAddr + size) of generated code. */
  datatype MethodCode = MethodCode(handle: nat, codeAddr: nat, size: nat, data: nat) {
    function End(): nat { codeAddr + size }

    predicate Contains(a: nat) { codeAddr <= a < End() }

    predicate Apart(other: MethodCode) { End() <= other.codeAddr || other.End() <= codeAddr }
  }

  /** Ascending, pairwise disjoint, non-empty ranges. */
  ghost predicate Ordered(s: seq<MethodCode>) {
    && (forall i :: 0 <= i < |s| ==> s[i].size > 0)
    && (forall i, j :: 0 <= i < j < |s| ==> s[i].End() <= s[j].codeAddr)
  }

  ghost predicate ApartFromAll(m: MethodCode, s: seq<MethodCode>) {
    m.size > 0 && forall i :: 0 <= i < |s| ==> s[i].Apart(m)
  }

  /** The first position whose range ends above `a`. */
  function InsertionIndex(s: seq<MethodCode>, a: nat): (k: nat)
    ensures k <= |s|
    ensures forall i :: 0 <= i < k ==> s[i].End() <= a
    ensures k < |s| ==> a < s[k].End()
  {
    if s == [] || a < s[0].End() then 0 else 1 + InsertionIndex(s[1..], a)
  }

  function Inserted(s: seq<MethodCode>, m: MethodCode): (t: seq<MethodCode>)
    ensures |t| == |s| + 1 && t[InsertionIndex(s, m.codeAddr)] == m
    ensures forall j :: 0 <= j < InsertionIndex(s, m.codeAddr) ==> t[j] == s[j]
    ensures forall j :: InsertionIndex(s, m.codeAddr) < j < |t| ==> t[j] == s[j - 1]
  {
    var k := InsertionIndex(s, m.codeAddr);
    s[..k] + [m] + s[k..]
  }

  lemma InsertedMembers(s: seq<MethodCode>, m: MethodCode)
    ensures forall c :: c in Inserted(s, m) <==> c in s || c == m
  {
    var k := InsertionIndex(s, m.codeAddr);
    assert s == s[..k] + s[k..];
  }

  lemma InsertedPair(s: seq<MethodCode>, m: MethodCode, i: nat, j: nat)
    requires Ordered(s) && ApartFromAll(m, s)
    requires i < j <= |s|
    ensures Inserted(s, m)[i].End() <= Inserted(s, m)[j].codeAddr
  {
    var k := InsertionIndex(s, m.codeAddr);
    if i == k {
      assert s[j - 1].Apart(m) && s[k].Apart(m);
      if k < j - 1 { assert s[k].End() <= s[j - 1].codeAddr; }
    }
  }

  /** Inserting keeps the table ordered exactly when the new range is non-empty and overlaps nothing. */
  lemma InsertedOrdered(s: seq<MethodCode>, m: MethodCode)
    requires Ordered(s)
    ensures Ordered(Inserted(s, m)) <==> ApartFromAll(m, s)
  {
    var k, t := InsertionIndex(s, m.codeAddr), Inserted(s, m);
    if Ordered(t) {
      assert t[k].size > 0;
      forall i | 0 <= i < |s| ensures s[i].Apart(m) {
        if i < k { assert t[i].End() <= t[k].codeAddr; } else { assert t[k].End() <= t[i + 1].codeAddr; }
      }
    }
    if ApartFromAll(m, s) {
      forall i, j | 0 <= i < j < |t| ensures t[i].End() <= t[j].codeAddr {
        InsertedPair(s, m, i, j);
      }
    }
  }

  /** In an ordered table an address lies in no range, or in exactly the one at the insertion index. */
  lemma LookupByIndex(s: seq<MethodCode>, a: nat)
    requires Ordered(s)
    ensures var k := InsertionIndex(s, a);
            if k < |s| && s[k].codeAddr <= a
            then forall i :: 0 <= i < |s| ==> (s[i].Contains(a) <==> i == k)
            else forall i :: 0 <= i < |s| ==> !s[i].Contains(a)
  {
    var k := InsertionIndex(s, a);
    forall i | 0 <= i < |s| && i > k ensures !s[i].Contains(a) {
      assert s[k].End() <= s[i].codeAddr;
    }
  }
}
