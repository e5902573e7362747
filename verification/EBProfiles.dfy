/** The entry/back-edge profile collector in ASYNC mode: profiles wait in `newProfiles`, are checked in
    `greenProfiles`, and leave it when they are reported as ready or when their class loader is unloaded. */
module EBProfiles {
  import opened Wrappers

  /** A profile object; `async` tells the profiles of this collector from those of the other collectors. */
  datatype Profile = Profile(id: nat, loader: nat, async: bool)

  type Slots = seq<Option<Profile>>

  function Somes(s: seq<Profile>): (r: Slots)
    ensures |r| == |s|
    ensures forall i :: 0 <= i < |s| ==> r[i] == Some(s[i])
  {
    seq(|s|, i requires 0 <= i < |s| => Some(s[i]))
  }

  /** The profiles that have not been nulled, in order. */
  function Live(v: Slots): (r: seq<Profile>)
    ensures |r| <= |v|
  {
    if v == [] then [] else Live(v[..|v| - 1]) + if v[|v| - 1].Some? then [v[|v| - 1].value] else []
  }

  /** What `std::remove` of the null pointer leaves: the live profiles, then the old tail. */
  function StdRemove(v: Slots): Slots {
    Somes(Live(v)) + v[|Live(v)|..]
  }

  /** The profiles of `s` that are in `H`, in order. */
  function Taken(s: seq<Profile>, H: set<Profile>): seq<Profile> {
    if s == [] then [] else Taken(s[..|s| - 1], H) + if s[|s| - 1] in H then [s[|s| - 1]] else []
  }

  /** The profiles of `s` that are not in `H`, in order. */
  function Rest(s: seq<Profile>, H: set<Profile>): seq<Profile> {
    if s == [] then [] else Rest(s[..|s| - 1], H) + if s[|s| - 1] in H then [] else [s[|s| - 1]]
  }

  predicate NoDuplicates(s: seq<Profile>) {
    forall i, j :: 0 <= i < j < |s| ==> s[i] != s[j]
  }

  // ---------------------------------------------------------------------------------------------
  // Facts about nulling and compaction
  // ---------------------------------------------------------------------------------------------

  lemma {:induction false} LiveConcat(a: Slots, b: Slots)
    ensures Live(a + b) == Live(a) + Live(b)
    decreases |b|
  {
    if b == [] {
      assert a + b == a;
    } else {
      LiveConcat(a, b[..|b| - 1]);
      assert (a + b)[..|a + b| - 1] == a + b[..|b| - 1];
    }
  }

  lemma {:induction false} LiveSomes(s: seq<Profile>)
    ensures Live(Somes(s)) == s
  {
    if s != [] {
      LiveSomes(s[..|s| - 1]);
      assert Somes(s)[..|s| - 1] == Somes(s[..|s| - 1]);
    }
  }

  lemma {:induction false} LiveMembers(v: Slots, p: Profile)
    ensures p in Live(v) <==> Some(p) in v
  {
    if v != [] {
      LiveMembers(v[..|v| - 1], p);
      assert v == v[..|v| - 1] + [v[|v| - 1]];
    }
  }

  lemma LiveAround(v: Slots, i: nat, o: Option<Profile>)
    requires i < |v|
    ensures Live(v[i := o]) == Live(v[..i]) + (if o.Some? then [o.value] else []) + Live(v[i + 1..])
  {
    var a, b := v[..i], v[i + 1..];
    assert v[i := o] == a + [o] + b;
    LiveConcat(a + [o], b);
    assert (a + [o])[..i] == a;
  }

  lemma CountInserted(a: seq<Profile>, x: Profile, b: seq<Profile>)
    ensures multiset(a + [x] + b) == multiset(a + [] + b) + multiset{x}
  {
    assert a + [] + b == a + b;
  }

  /** Nulling one slot takes exactly its profile out. */
  lemma NullOne(v: Slots, i: nat)
    requires i < |v| && v[i].Some?
    ensures multiset(Live(v)) == multiset(Live(v[i := None])) + multiset{v[i].value}
    ensures |Live(v[i := None])| + 1 == |Live(v)|
  {
    assert v[i := v[i]] == v;
    LiveAround(v, i, v[i]);
    LiveAround(v, i, None);
    CountInserted(Live(v[..i]), v[i].value, Live(v[i + 1..]));
  }

  /** Removing and shrinking by the number of nulled slots leaves exactly the live profiles. */
  lemma CompactIsLive(v: Slots, n: nat)
    requires |Live(v)| + n == |v|
    ensures StdRemove(v)[..|v| - n] == Somes(Live(v))
  {
  }

  // ---------------------------------------------------------------------------------------------
  // The collector with its calls taken one at a time
  // ---------------------------------------------------------------------------------------------

  /** `std::remove(begin, end, NULL)` on a vector; `w` is the new end it returns. */
  method RemoveNulls(v: Slots) returns (r: Slots, w: nat)
    ensures r == StdRemove(v) && w == |Live(v)|
  {
    r := v;
    w := 0;
    var i := 0;
    while i < |v|
      invariant 0 <= w <= i <= |v| == |r|
      invariant w == |Live(v[..i])| && r[..w] == Somes(Live(v[..i])) && r[w..] == v[w..]
    {
      assert v[..i + 1][..i] == v[..i];
      if r[i].Some? {
        r := r[w := r[i]];
        w := w + 1;
      }
      i := i + 1;
    }
    assert v[..|v|] == v;
  }

  /** `s` as a vector in which the members of `H` have been nulled. */
  function Masked(s: seq<Profile>, H: set<Profile>): (r: Slots)
    ensures |r| == |s|
  {
    seq(|s|, i requires 0 <= i < |s| => if s[i] in H then None else Some(s[i]))
  }

  lemma {:induction false} MaskedLive(s: seq<Profile>, H: set<Profile>)
    ensures Live(Masked(s, H)) == Rest(s, H) && |Rest(s, H)| + |Taken(s, H)| == |s|
  {
    if s != [] {
      var t := s[..|s| - 1];
      MaskedLive(t, H);
      assert Masked(s, H)[..|s| - 1] == Masked(t, H);
    }
  }

  lemma {:induction false} RestMembers(s: seq<Profile>, H: set<Profile>, p: Profile)
    ensures p in Rest(s, H) <==> p in s && p !in H
    ensures p in Taken(s, H) <==> p in s && p in H
  {
    if s != [] {
      RestMembers(s[..|s| - 1], H, p);
      assert s == s[..|s| - 1] + [s[|s| - 1]];
    }
  }

  lemma {:induction false} RestDistinct(s: seq<Profile>, H: set<Profile>)
    requires NoDuplicates(s)
    ensures NoDuplicates(Rest(s, H))
  {
    if s != [] {
      var t := s[..|s| - 1];
      RestDistinct(t, H);
      RestMembers(t, H, s[|s| - 1]);
    }
  }

  function Elements(s: seq<Profile>): set<Profile> { set p | p in s }

  function FromLoader(s: seq<Profile>, h: nat): seq<Profile> {
    if s == [] then [] else FromLoader(s[..|s| - 1], h) + if s[|s| - 1].loader == h then [s[|s| - 1]] else []
  }

  lemma {:induction false} RestAll(s: seq<Profile>, H: set<Profile>)
    requires Taken(s, H) == []
    ensures Rest(s, H) == s
  {
    if s != [] {
      RestAll(s[..|s| - 1], H);
    }
  }

  lemma {:induction false} RestOfNothing(s: seq<Profile>)
    ensures Rest(s, {}) == s
  {
    if s != [] {
      RestOfNothing(s[..|s| - 1]);
    }
  }

  lemma {:induction false} LoaderConcat(a: seq<Profile>, b: seq<Profile>, h: nat)
    ensures FromLoader(a + b, h) == FromLoader(a, h) + FromLoader(b, h)
    decreases |b|
  {
    if b == [] {
      assert a + b == a;
    } else {
      LoaderConcat(a, b[..|b| - 1], h);
      assert (a + b)[..|a + b| - 1] == a + b[..|b| - 1];
    }
  }

  lemma {:induction false} LoaderMembers(s: seq<Profile>, h: nat, p: Profile)
    ensures p in FromLoader(s, h) <==> p in s && p.loader == h
  {
    if s != [] {
      LoaderMembers(s[..|s| - 1], h, p);
      assert s == s[..|s| - 1] + [s[|s| - 1]];
    }
  }

  lemma {:induction false} LoaderDistinct(s: seq<Profile>, h: nat)
    requires NoDuplicates(s)
    ensures NoDuplicates(FromLoader(s, h))
  {
    if s != [] {
      LoaderDistinct(s[..|s| - 1], h);
      LoaderMembers(s[..|s| - 1], h, s[|s| - 1]);
    }
  }

  /** Adding the profiles of one more loader repeats nothing and leaves the known profiles. */
  lemma LoaderAdded(us: seq<Profile>, all: seq<Profile>, h: nat)
    requires NoDuplicates(us) && NoDuplicates(all) && Elements(us) <= Elements(all)
    requires forall p :: p in us ==> p.loader != h
    ensures NoDuplicates(us + FromLoader(all, h)) && Elements(us + FromLoader(all, h)) <= Elements(all)
  {
    var more := FromLoader(all, h);
    LoaderDistinct(all, h);
    forall p | p in more ensures p in all && p.loader == h {
      LoaderMembers(all, h, p);
    }
    assert forall i :: 0 <= i < |us| ==> us[i] in us;
    assert forall j :: 0 <= j < |more| ==> more[j] in more;
    assert forall p :: p in us ==> p in Elements(us);
  }

  /** The noted profiles of one loader in a vector. */
  method SelectSlots(v: Slots, h: nat, ghost s: seq<Profile>) returns (r: seq<Profile>)
    requires v == Somes(s)
    ensures r == FromLoader(s, h)
  {
    r := [];
    var i := 0;
    while i < |v|
      invariant 0 <= i <= |v| && r == FromLoader(s[..i], h)
    {
      assert s[..i + 1][..i] == s[..i];
      if v[i].value.loader == h {
        r := r + [v[i].value];
      }
      i := i + 1;
    }
    assert s[..|s|] == s;
  }

  method FindGreen(v: Slots, u: Profile, ghost all: seq<Profile>, ghost done: seq<Profile>) returns (at: nat)
    requires v == Masked(all, Elements(done)) && u in all && u !in done
    ensures at < |v| && v[at] == Some(u)
  {
    ghost var i :| 0 <= i < |all| && all[i] == u;
    assert v[i] == Some(u);
    at := 0;
    while at < |v| && v[at] != Some(u)
      invariant 0 <= at <= |v|
      invariant forall i :: 0 <= i < at ==> v[i] != Some(u)
    {
      at := at + 1;
    }
  }

  /** The checking loop: hot profiles go to `tmp` and leave a null behind. */
  method MarkReady(v: Slots, hot: set<Profile>, ghost s: seq<Profile>) returns (r: Slots, tmp: seq<Profile>)
    requires v == Somes(s)
    ensures r == Masked(s, hot) && tmp == Taken(s, hot)
  {
    r, tmp := v, [];
    var i := 0;
    while i < |r|
      invariant 0 <= i <= |r| == |v|
      invariant forall j :: 0 <= j < |r| ==> r[j] == if j < i && s[j] in hot then None else Some(s[j])
      invariant tmp == Taken(s[..i], hot)
    {
      assert s[..i + 1][..i] == s[..i];
      var p := r[i].value;
      if p in hot {
        tmp := tmp + [p];
        r := r[i := None];
      }
      i := i + 1;
    }
    assert s[..|s|] == s;
  }

  /** What awaits deletion once the loader's profiles, green ones first, are noted. */
  function Noted(green: seq<Profile>, recent: seq<Profile>, unloaded: seq<Profile>, h: nat): seq<Profile> {
    unloaded + FromLoader(green, h) + FromLoader(recent, h)
  }

  /** Nothing is noted twice, and only green and new profiles are. */
  lemma NotedOnce(green: seq<Profile>, recent: seq<Profile>, us: seq<Profile>, h: nat)
    requires NoDuplicates(us) && NoDuplicates(green + recent) && Elements(us) <= Elements(green + recent)
    requires forall p :: p in us ==> p.loader != h
    ensures var r := Noted(green, recent, us, h); NoDuplicates(r) && Elements(r) <= Elements(green + recent)
  {
    LoaderConcat(green, recent, h);
    LoaderAdded(us, green + recent, h);
    assert Noted(green, recent, us, h) == us + FromLoader(green + recent, h);
  }

  /** The profiles a timer call checks: green and new ones, in order, without the unloaded. */
  function Survivors(green: seq<Profile>, recent: seq<Profile>, unloaded: seq<Profile>): seq<Profile> {
    Rest(green + recent, Elements(unloaded))
  }

  class EBProfileCollector {
    var newProfiles: seq<Profile>
    var greenProfiles: Slots
    var unloadedProfiles: seq<Profile>

    ghost function Checked(): seq<Profile>
      reads this
    {
      Live(greenProfiles)
    }

    /** Between calls: no null slot, no profile twice, and whatever awaits unloading is green or new. */
    ghost predicate Valid()
      reads this
    {
      && greenProfiles == Somes(Checked())
      && NoDuplicates(Checked() + newProfiles)
      && NoDuplicates(unloadedProfiles)
      && Elements(unloadedProfiles) <= Elements(Checked() + newProfiles)
    }

    constructor ()
      ensures Valid() && newProfiles == [] && Checked() == [] && unloadedProfiles == []
    {
      newProfiles, greenProfiles, unloadedProfiles := [], [], [];
    }

    method CreateProfile(p: Profile)
      requires Valid() && p !in Checked() + newProfiles
      modifies this`newProfiles
      ensures Valid() && newProfiles == old(newProfiles) + [p]
    {
      newProfiles := newProfiles + [p];
      assert Checked() + newProfiles == (Checked() + old(newProfiles)) + [p];
    }

    /** One timer call. `hot` are the profiles over a threshold; `ready` are those reported, in order. */
    method OnTimeout(hot: set<Profile>) returns (ready: seq<Profile>)
      requires Valid()
      modifies this
      ensures Valid() && newProfiles == [] && unloadedProfiles == []
      ensures var kept := Survivors(old(Checked()), old(newProfiles), old(unloadedProfiles));
              Checked() == Rest(kept, hot) && ready == Taken(kept, hot)
    {
      ghost var all := Checked() + newProfiles;
      ghost var gone := Elements(unloadedProfiles);
      if newProfiles != [] {
        greenProfiles := greenProfiles + Somes(newProfiles);
        newProfiles := [];
      }
      assert greenProfiles == Somes(all);
      if unloadedProfiles != [] {
        CleanUnloadedProfiles(all);
      } else {
        assert gone == {};
        RestOfNothing(all);
      }
      RestDistinct(all, gone);
      ready := CheckGreen(hot, Rest(all, gone));
    }

    /** Mark, remove, shrink: the hot profiles leave, the others stay in order. */
    method CheckGreen(hot: set<Profile>, ghost kept: seq<Profile>) returns (ready: seq<Profile>)
      requires greenProfiles == Somes(kept) && NoDuplicates(kept) && newProfiles == [] && unloadedProfiles == []
      modifies this`greenProfiles
      ensures Valid() && Checked() == Rest(kept, hot) && ready == Taken(kept, hot)
    {
      var marked;
      marked, ready := MarkReady(greenProfiles, hot, kept);
      MaskedLive(kept, hot);
      if ready != [] {
        var removed, _ := RemoveNulls(marked);
        CompactIsLive(marked, |ready|);
        greenProfiles := removed[..|marked| - |ready|];
      } else {
        RestAll(kept, hot);
      }
      LiveSomes(Rest(kept, hot));
      RestDistinct(kept, hot);
      assert Checked() + newProfiles == Checked();
    }

    method CleanUnloadedProfiles(ghost all: seq<Profile>)
      requires greenProfiles == Somes(all) && NoDuplicates(all) && NoDuplicates(unloadedProfiles)
      requires Elements(unloadedProfiles) <= Elements(all)
      modifies this`greenProfiles, this`unloadedProfiles
      ensures unloadedProfiles == [] && greenProfiles == Somes(Rest(all, Elements(old(unloadedProfiles))))
    {
      var v, us := greenProfiles, unloadedProfiles;
      var k := 0;
      assert Elements(us[..0]) == {};
      while k < |us|
        invariant 0 <= k <= |us|
        invariant v == Masked(all, Elements(us[..k]))
      {
        assert us[k] in Elements(us) && us[k] in Elements(all);
        var at := FindGreen(v, us[k], all, us[..k]);
        v := v[at := None];
        assert Elements(us[..k + 1]) == Elements(us[..k]) + {us[k]};
        k := k + 1;
      }
      assert us[..|us|] == us;
      MaskedLive(all, Elements(us));
      unloadedProfiles := [];
      var removed, end := RemoveNulls(v);
      CompactIsLive(v, |v| - end);
      greenProfiles := removed[..end];
    }

    /** ASYNC mode: the profiles of the loader are noted and stay where they are. */
    method ClassloaderUnloadingCallback(h: nat)
      requires Valid() && forall p :: p in unloadedProfiles ==> p.loader != h
      modifies this`unloadedProfiles
      ensures Valid()
      ensures unloadedProfiles == Noted(Checked(), newProfiles, old(unloadedProfiles), h)
    {
      var fromGreen := SelectSlots(greenProfiles, h, Checked());
      var fromNew := SelectSlots(Somes(newProfiles), h, newProfiles);
      NotedOnce(Checked(), newProfiles, unloadedProfiles, h);
      unloadedProfiles := unloadedProfiles + fromGreen + fromNew;
    }
  }
}
