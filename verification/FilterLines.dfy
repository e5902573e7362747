/** What configuration lines mean: laws between lines, the exact text of range lines, and what a line says about a
    method in terms of the method's own names and numbers. */
module FilterLines {
  import opened MethodFilter

  // ---------------------------------------------------------------------------------------------
  // Signs
  // ---------------------------------------------------------------------------------------------

  predicate Signed(line: string) { line != [] && (line[0] == '+' || line[0] == '-') }

  function Denying(o: Outcome): Outcome {
    if o.Accepted? then Accepted(o.f.(accept := false)) else o
  }

  lemma BodyDenies(s: string)
    ensures s != [] && IsDigit(s[0]) ==> ParseRange(false, s) == Denying(ParseRange(true, s))
    ensures ParseName(false, s) == ParseName(true, s).(accept := false)
  {
  }

  /** A line without a sign accepts, as the line with a plus does; the line with a minus denies the same methods. */
  lemma SignLaws(line: string)
    requires line != [] && !Signed(line)
    ensures Parse("+" + line) == Parse(line)
    ensures Parse("-" + line) == Denying(Parse(line))
    ensures Parse(line).Accepted? ==> Parse(line).f.accept
  {
    assert ("+" + line)[1..] == line && ("-" + line)[1..] == line;
    BodyDenies(line);
  }

  // ---------------------------------------------------------------------------------------------
  // Two separators
  // ---------------------------------------------------------------------------------------------

  /** The search for a character from the end of a prefix depends on what follows the prefix only. */
  lemma FindBehind(a: string, r: string, ch: char)
    ensures Find(a + r, [ch], |a|) == var q := Find(r, [ch], 0); if q < 0 then -1 else |a| + q
  {
    var s, q := a + r, Find(r, [ch], 0);
    FoundChar(r, ch, 0);
    if q < 0 {
      assert s[|a|..] == r == r[0..];
      FindCharNone(s, ch, |a|);
    } else {
      assert s[|a| + q] == r[q] && s[|a|..|a| + q] == r[0..q];
      FindChar(s, ch, |a|, |a| + q);
    }
  }

  /** Class `c`, and method name and signature parted at the first parenthesis of `r`. */
  function NameOf(accept: bool, c: string, r: string): Filter {
    var p := Find(r, "(", 0);
    if p < 0 then Name(accept, c, r, "") else Name(accept, c, r[..p], r[p..])
  }

  lemma NameParts(accept: bool, c: string, sep: string, r: string)
    ensures var s := c + sep + r;
            var rest := |c + sep|;
            var end := Find(s, "(", rest);
            NameOf(accept, c, r) == if end < 0 then Name(accept, s[..|c|], s[rest..], "")
                                    else Name(accept, s[..|c|], s[rest..end], s[end..])
  {
    var a := c + sep;
    var s, p := a + r, Find(r, "(", 0);
    FindBehind(a, r, '(');
    assert s[..|c|] == c && s[|a|..] == r;
    if p >= 0 {
      assert s[|a|..|a| + p] == r[..p] && s[|a| + p..] == r[p..];
    }
  }

  lemma DotName(accept: bool, c: string, r: string)
    requires '.' !in c
    ensures ParseName(accept, c + "." + r) == NameOf(accept, c, r)
  {
    var s := c + "." + r;
    assert s[0..|c|] == c;
    FindChar(s, '.', 0, |c|);
    NameParts(accept, c, ".", r);
  }

  lemma ColonName(accept: bool, c: string, r: string)
    requires '.' !in c && '.' !in r && Find(c + "::" + r, "::", 0) == |c|
    ensures ParseName(accept, c + "::" + r) == NameOf(accept, c, r)
  {
    var s := c + "::" + r;
    assert s[0..] == s;
    FindCharNone(s, '.', 0);
    NameParts(accept, c, "::", r);
  }

  lemma NotNum(s: string, k: nat)
    requires k < |s| && !IsDigit(s[k])
    ensures !IsNum(s)
  {
  }

  lemma RejectsNonDigit(accept: bool, s: string, k: nat)
    requires s != [] && IsDigit(s[0]) && Find(s, "..", 0) < 0
    requires k < |s| && !IsDigit(s[k]) && s[k] != 'b' && s[k] != 'B'
    ensures ParseRange(accept, s) == Rejected
  {
    assert ParseRange(accept, s) == ParseBounds(accept, s, s);
    NotNum(s, k);
    if EndsWithB(s) {
      assert s[..|s| - 1][k] == s[k];
      NotNum(s[..|s| - 1], k);
    }
  }

  lemma NoTwoDots(s: string, k: nat)
    requires k < |s| && forall i :: 0 <= i < |s| && i != k ==> s[i] != '.'
    ensures Find(s, "..", 0) < 0
  {
    forall i: nat ensures !OccursAt(s, "..", i) {
      if i + 2 <= |s| { assert s[i..i + 2][0] == s[i] && s[i..i + 2][1] == s[i + 1]; }
    }
    FindNone(s, "..", 0);
  }

  lemma ColonRange(accept: bool, c: string, r: string)
    requires '.' !in c && '.' !in r && c != [] && IsDigit(c[0])
    ensures ParseRange(accept, c + "::" + r) == Rejected == ParseRange(accept, c + "." + r)
  {
    var a, b := c + "::" + r, c + "." + r;
    NoTwoDots(a, |c|);
    NoTwoDots(b, |c|);
    RejectsNonDigit(accept, a, |c|);
    RejectsNonDigit(accept, b, |c|);
  }

  /** What `Parse` makes of a line once the sign is off. */
  function ParseBody(accept: bool, s: string): Outcome {
    if s != [] && IsDigit(s[0]) then ParseRange(accept, s) else Accepted(ParseName(accept, s))
  }

  lemma ColonBody(accept: bool, c: string, r: string)
    requires '.' !in c && '.' !in r && Find(c + "::" + r, "::", 0) == |c|
    ensures ParseBody(accept, c + "::" + r) == ParseBody(accept, c + "." + r)
  {
    if c != [] && IsDigit(c[0]) {
      ColonRange(accept, c, r);
    } else {
      ColonName(accept, c, r);
      DotName(accept, c, r);
    }
  }

  lemma SignedBody(sign: string, s: string)
    requires sign == "+" || sign == "-"
    ensures Parse(sign + s) == ParseBody(sign != "-", s)
  {
    assert (sign + s)[1..] == s;
  }

  lemma UnsignedBody(line: string)
    requires line != [] && !Signed(line)
    ensures Parse(line) == ParseBody(true, line)
  {
  }

  lemma FindTail(s: string, pat: string, at: nat)
    requires s != [] && at > 0 && Find(s, pat, 0) == at
    ensures Find(s[1..], pat, 0) == at - 1
  {
    forall i: nat ensures OccursAt(s[1..], pat, i) <==> OccursAt(s, pat, i + 1) {
      if i + 1 + |pat| <= |s| { assert s[1..][i..i + |pat|] == s[i + 1..i + 1 + |pat|]; }
    }
    FindIs(s[1..], pat, 0, at - 1);
  }

  lemma SignedColons(sign: string, c: string, r: string)
    requires sign == "+" || sign == "-"
    requires '.' !in c && '.' !in r && Find(c + "::" + r, "::", 0) == |c|
    ensures Parse(sign + (c + "::" + r)) == Parse(sign + (c + "." + r))
  {
    SignedBody(sign, c + "::" + r);
    SignedBody(sign, c + "." + r);
    ColonBody(sign != "-", c, r);
  }

  lemma UnsignedColons(c: string, r: string)
    requires !Signed(c) && '.' !in c && '.' !in r && Find(c + "::" + r, "::", 0) == |c|
    ensures Parse(c + "::" + r) == Parse(c + "." + r)
  {
    UnsignedBody(c + "::" + r);
    UnsignedBody(c + "." + r);
    ColonBody(true, c, r);
  }

  lemma Regroup(c: string, sep: string, r: string)
    requires c != []
    ensures c + sep + r == c[..1] + (c[1..] + sep + r) && (c + sep + r)[1..] == c[1..] + sep + r
  {
  }

  lemma TailColons(c: string, r: string)
    requires c != [] && Find(c + "::" + r, "::", 0) == |c|
    ensures Find(c[1..] + "::" + r, "::", 0) == |c[1..]|
  {
    Regroup(c, "::", r);
    FindTail(c + "::" + r, "::", |c|);
  }

  /** In a line without dots the first pair of colons separates class and method as a dot does, whatever follows. */
  lemma ColonsAreADot(c: string, r: string)
    requires '.' !in c && '.' !in r && Find(c + "::" + r, "::", 0) == |c|
    ensures Parse(c + "::" + r) == Parse(c + "." + r)
  {
    if Signed(c) {
      Regroup(c, "::", r);
      Regroup(c, ".", r);
      TailColons(c, r);
      SignedColons(c[..1], c[1..], r);
    } else {
      UnsignedColons(c, r);
    }
  }

  // ---------------------------------------------------------------------------------------------
  // Numbers
  // ---------------------------------------------------------------------------------------------

  /** The suffix of a bytecode size, or none. */
  predicate Suffix(x: string) { x == "" || x == "b" || x == "B" }

  lemma NoDots(s: string)
    requires '.' !in s
    ensures Find(s, "..", 0) < 0
  {
    forall i: nat ensures !OccursAt(s, "..", i) {
      if i + 2 <= |s| { assert s[i..i + 2][0] == s[i]; }
    }
    FindNone(s, "..", 0);
  }

  lemma SingleBody(accept: bool, d: string, x: string)
    requires d != [] && AllDigits(d) && Suffix(x)
    ensures ParseRange(accept, d + x) == ParseRange(accept, d + x + ".." + (d + x))
  {
    DigitsHaveNoDot(d);
    NoDots(d + x);
    ParseRangeSplits(accept, d + x, d + x);
  }

  /** A single number, with or without the size suffix and with or without a sign, is the range from it to itself. */
  lemma SingleNumber(sign: string, d: string, x: string)
    requires sign == "" || sign == "+" || sign == "-"
    requires d != [] && AllDigits(d) && Suffix(x)
    ensures Parse(sign + (d + x)) == Parse(sign + (d + x + ".." + (d + x)))
  {
    var n := d + x;
    SingleBody(sign != "-", d, x);
    if sign != "" {
      assert (sign + n)[1..] == n && (sign + (n + ".." + n))[1..] == n + ".." + n;
    } else {
      assert sign + n == n && sign + (n + ".." + n) == n + ".." + n;
    }
  }

  /** `s` spells a range: two numbers with their suffixes and two dots between, or one number. */
  ghost predicate Spells(s: string, a: string, x: string, b: string, y: string) {
    s == a + x + ".." + (b + y) || (a == b && x == y && s == a + x)
  }

  /** The filter of a range from `a` to `b`: of method numbers without suffixes, of bytecode sizes with two. */
  ghost predicate RangeText(accept: bool, s: string, f: Filter, a: string, x: string, b: string, y: string) {
    && IsNum(a) && IsNum(b) && AToI(a) <= AToI(b) && Suffix(x) && Suffix(y) && (x == "" <==> y == "")
    && f == (if x == "" then NumRange(accept, AToI(a), AToI(b)) else BcSize(accept, AToI(a), AToI(b)))
    && Spells(s, a, x, b, y)
  }

  lemma BoundsOf(accept: bool, a: string, x: string, b: string, y: string)
    requires IsNum(a) && IsNum(b) && Suffix(x) && Suffix(y) && (x == "" <==> y == "")
    ensures ParseBounds(accept, a + x, b + y) == MakeRange(accept, x != "", a, b)
  {
    if x == "" {
      assert a + x == a && b + y == b && a[|a| - 1] in a;
    } else {
      assert (a + x)[..|a + x| - 1] == a && (b + y)[..|b + y| - 1] == b;
    }
  }

  lemma TextParses(accept: bool, s: string, f: Filter, a: string, x: string, b: string, y: string)
    requires RangeText(accept, s, f, a, x, b, y)
    ensures s != [] && IsDigit(s[0]) && ParseRange(accept, s) == Accepted(f)
  {
    DigitsHaveNoDot(a);
    BoundsOf(accept, a, x, b, y);
    if s == a + x + ".." + (b + y) {
      ParseRangeSplits(accept, a + x, b + y);
    } else {
      NoDots(a + x);
    }
  }

  lemma BoundsAreText(accept: bool, s: string, f: Filter, start: string, end: string)
    returns (a: string, x: string, b: string, y: string)
    requires start != [] && ParseBounds(accept, start, end) == Accepted(f)
    requires s == start + ".." + end || (start == end && s == start)
    ensures RangeText(accept, s, f, a, x, b, y)
  {
    if EndsWithB(start) {
      a, x, b, y := start[..|start| - 1], start[|start| - 1..], end[..|end| - 1], end[|end| - 1..];
    } else {
      a, x, b, y := start, "", end, "";
    }
    assert a + x == start && b + y == end;
  }

  lemma ParsedIsText(accept: bool, s: string, f: Filter) returns (a: string, x: string, b: string, y: string)
    requires s != [] && IsDigit(s[0]) && ParseRange(accept, s) == Accepted(f)
    ensures RangeText(accept, s, f, a, x, b, y)
  {
    var div := Find(s, "..", 0);
    if div < 0 {
      a, x, b, y := BoundsAreText(accept, s, f, s, s);
    } else {
      assert s == s[..div] + ".." + s[div + 2..];
      a, x, b, y := BoundsAreText(accept, s, f, s[..div], s[div + 2..]);
    }
  }

  /** Exactly the range lines: a line that begins with a digit is accepted as a filter if and only if it spells that
      range with numbers of one to nine digits in order. */
  lemma RangeLineIff(s: string, f: Filter)
    requires s != [] && IsDigit(s[0])
    ensures Parse(s) == Accepted(f) <==> exists a, x, b, y :: RangeText(true, s, f, a, x, b, y)
  {
    if Parse(s) == Accepted(f) {
      var a, x, b, y := ParsedIsText(true, s, f);
    }
    if a, x, b, y :| RangeText(true, s, f, a, x, b, y) {
      TextParses(true, s, f, a, x, b, y);
    }
  }

  // ---------------------------------------------------------------------------------------------
  // What a line says about a method
  // ---------------------------------------------------------------------------------------------

  /** The method's class name, name and signature go on from those of the filter. */
  ghost predicate GoesOn(f: Filter, m: MethodInfo, x: string, y: string, z: string)
    requires f.Name?
  {
    m.className == f.className + x && m.methodName == f.methodName + y && m.signature == f.signature + z
  }

  /** A name filter matches exactly the methods whose strings it begins. */
  lemma NameMatchesIff(f: Filter, m: MethodInfo)
    requires f.Name?
    ensures Matches(f, m) <==> exists x, y, z :: GoesOn(f, m, x, y, z)
  {
    if Matches(f, m) {
      var x, y, z := m.className[|f.className|..], m.methodName[|f.methodName|..], m.signature[|f.signature|..];
      assert GoesOn(f, m, x, y, z);
    }
    if x, y, z :| GoesOn(f, m, x, y, z) {
      assert StartsWith(m.className, f.className) && StartsWith(m.methodName, f.methodName);
    }
  }

  lemma ShorterPrefix(s: string, p: string, x: string)
    requires StartsWith(s, p + x)
    ensures StartsWith(s, p)
  {
    assert s[..|p|] == s[..|p + x|][..|p|] == p;
  }

  /** A longer name filter matches no more methods. */
  lemma LongerMatchesLess(f: Filter, m: MethodInfo, accept: bool, x: string, y: string, z: string)
    requires f.Name?
    requires Matches(Name(accept, f.className + x, f.methodName + y, f.signature + z), m)
    ensures Matches(f, m)
  {
    if f.className != "" { ShorterPrefix(m.className, f.className, x); }
    if f.methodName != "" { ShorterPrefix(m.methodName, f.methodName, y); }
    if f.signature != "" { ShorterPrefix(m.signature, f.signature, z); }
  }

  /** The filter for all methods whose strings begin as those of `m`. */
  function FullName(accept: bool, m: MethodInfo): Filter {
    Name(accept, m.className, m.methodName, m.signature)
  }

  /** As the class files have it: no dot and no leading digit in a class name, a signature begins with a parenthesis. */
  ghost predicate ProperNames(m: MethodInfo) { Canonical(FullName(true, m)) && m.className != "" }

  lemma OnlyOne(f: Filter, m: MethodInfo)
    ensures Matched([f], m) <==> Matches(f, m)
  {
    assert [f][0] == f;
  }

  /** The first line decides the methods its filter matches and leaves the others to the lines below. */
  lemma FirstLineDecides(line: string, f: Filter, lines: seq<string>, m: MethodInfo)
    requires FilterOf(line) == [f]
    ensures Accepts([line] + lines, m) == if Matches(f, m) then f.accept else Accepts(lines, m)
  {
    OnlyOne(f, m);
    assert ([line] + lines)[1..] == lines;
  }

  lemma FullNameLine(m: MethodInfo, accept: bool)
    requires ProperNames(m)
    ensures FilterOf((if accept then "+" else "-") + (m.className + "." + m.methodName + m.signature))
         == [FullName(accept, m)]
  {
    var s := m.className + "." + m.methodName + m.signature;
    var line := (if accept then "+" else "-") + s;
    QualifiedRoundTrip(accept, m.className, m.methodName, m.signature);
    assert s[0] == m.className[0];
    SignedBody(if accept then "+" else "-", s);
  }

  /** The line with a method's full name decides that method, ahead of whatever follows, and no method whose strings
      do not go on from it. */
  lemma FullNameDecides(m: MethodInfo, accept: bool, lines: seq<string>, other: MethodInfo)
    requires ProperNames(m)
    ensures var line := (if accept then "+" else "-") + (m.className + "." + m.methodName + m.signature);
            && Accepts([line] + lines, m) == accept
            && (!(exists x, y, z :: GoesOn(FullName(accept, m), other, x, y, z)) ==>
                  Accepts([line] + lines, other) == Accepts(lines, other))
  {
    var f := FullName(accept, m);
    var line := (if accept then "+" else "-") + (m.className + "." + m.methodName + m.signature);
    FullNameLine(m, accept);
    FirstLineDecides(line, f, lines, m);
    FirstLineDecides(line, f, lines, other);
    assert m.className + "" == m.className && m.methodName + "" == m.methodName && m.signature + "" == m.signature;
    assert GoesOn(f, m, "", "", "");
    NameMatchesIff(f, m);
    NameMatchesIff(f, other);
  }

  /** A line with a range speaks of the methods with a number in it, or a bytecode size if it has suffixes. */
  lemma RangeMatchesIff(lo: nat, hi: nat, m: MethodInfo)
    requires lo <= hi <= MAX_NUM
    ensures LineMatches(Decimal(lo) + ".." + Decimal(hi), m) <==> lo <= m.num <= hi
    ensures LineMatches(Decimal(lo) + "b" + ".." + (Decimal(hi) + "b"), m) <==> lo <= m.bytecodeLength <= hi
  {
    RangeRoundTrip(true, lo, hi);
    BcSizeRoundTrip(true, lo, hi);
    var n, b := Decimal(lo) + ".." + Decimal(hi), Decimal(lo) + "b" + ".." + (Decimal(hi) + "b");
    assert FilterOf(n) == [NumRange(true, lo, hi)] && FilterOf(b) == [BcSize(true, lo, hi)];
    OnlyOne(NumRange(true, lo, hi), m);
    OnlyOne(BcSize(true, lo, hi), m);
  }
}
