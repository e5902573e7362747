/** Method filters of a recompilation chain: the configuration-line parser, a printer for it, and the decision
    whether a method is accepted. */
module MethodFilter {

  datatype Filter =
    | Name(accept: bool, className: string, methodName: string, signature: string)
    | NumRange(accept: bool, start: nat, end: nat)
    | BcSize(accept: bool, start: nat, end: nat)

  /** `Undefined`: the source reads before the beginning of an empty string. */
  datatype Outcome = Accepted(f: Filter) | Rejected | Undefined

  // ---------------------------------------------------------------------------------------------
  // Strings and numbers
  // ---------------------------------------------------------------------------------------------

  predicate OccursAt(s: string, pat: string, i: nat) {
    i + |pat| <= |s| && s[i..i + |pat|] == pat
  }

  /** `std::string::find`: the first occurrence at or after `from`, or -1. */
  function Find(s: string, pat: string, from: nat): (r: int)
    ensures r == -1 || (from <= r && OccursAt(s, pat, r))
    ensures forall i :: from <= i && (r == -1 || i < r) ==> !OccursAt(s, pat, i)
    decreases |s| - from
  {
    if from > |s| then -1
    else if OccursAt(s, pat, from) then from
    else Find(s, pat, from + 1)
  }

  predicate IsDigit(c: char) { '0' <= c <= '9' }

  predicate AllDigits(s: string) { forall i :: 0 <= i < |s| ==> IsDigit(s[i]) }

  predicate IsNum(s: string) { 0 < |s| < 10 && AllDigits(s) }

  function DigitValue(c: char): (d: nat)
    ensures d <= 9
  {
    if IsDigit(c) then c as int - '0' as int else 0
  }

  function AToI(s: string): nat {
    if s == [] then 0 else 10 * AToI(s[..|s| - 1]) + DigitValue(s[|s| - 1])
  }

  function DigitChar(d: nat): (c: char)
    requires d <= 9
    ensures IsDigit(c) && DigitValue(c) == d
  {
    ('0' as int + d) as char
  }

  function Decimal(n: nat): (s: string)
    ensures s != [] && AllDigits(s)
  {
    if n < 10 then [DigitChar(n)] else Decimal(n / 10) + [DigitChar(n % 10)]
  }

  lemma {:induction false} DecimalRoundTrip(n: nat)
    ensures AToI(Decimal(n)) == n
  {
    if n < 10 {
      assert AToI([]) == 0 && [DigitChar(n)][..0] == [];
    } else {
      DecimalRoundTrip(n / 10);
      var s := Decimal(n / 10);
      assert (s + [DigitChar(n % 10)])[..|s|] == s;
    }
  }

  function Power10(k: nat): (r: nat)
    ensures r > 0
  {
    if k == 0 then 1 else 10 * Power10(k - 1)
  }

  lemma {:induction false} NumberBound(s: string)
    ensures AToI(s) < Power10(|s|)
  {
    if s != [] {
      NumberBound(s[..|s| - 1]);
    }
  }

  lemma {:induction false} PowerMonotone(j: nat, k: nat)
    requires j <= k
    ensures Power10(j) <= Power10(k)
    decreases k - j
  {
    if j < k {
      PowerMonotone(j, k - 1);
    }
  }

  lemma {:induction false} DecimalLength(n: nat, k: nat)
    requires k >= 1 && n < Power10(k)
    ensures |Decimal(n)| <= k
  {
    if n >= 10 {
      DecimalLength(n / 10, k - 1);
    }
  }

  const MAX_NUM: nat := 999_999_999

  lemma NineDigits()
    ensures Power10(9) == MAX_NUM + 1
  {
    assert Power10(3) == 1000;
    assert Power10(6) == 1000 * Power10(3);
    assert Power10(9) == 1000 * Power10(6);
  }

  /** Nine digits at most: the conversion stays far below the 32-bit limit. */
  lemma NumFits(s: string)
    requires IsNum(s)
    ensures AToI(s) <= MAX_NUM
  {
    NumberBound(s);
    PowerMonotone(|s|, 9);
    NineDigits();
  }

  lemma DecimalIsNum(n: nat)
    requires n <= MAX_NUM
    ensures IsNum(Decimal(n)) && AToI(Decimal(n)) == n
  {
    NineDigits();
    DecimalLength(n, 9);
    DecimalRoundTrip(n);
  }

  // ---------------------------------------------------------------------------------------------
  // The parser
  // ---------------------------------------------------------------------------------------------

  predicate EndsWithB(s: string)
    requires s != []
  {
    s[|s| - 1] == 'b' || s[|s| - 1] == 'B'
  }

  function MakeRange(accept: bool, bc: bool, start: string, end: string): Outcome {
    if !IsNum(start) || !IsNum(end) then Rejected
    else if AToI(start) > AToI(end) then Rejected
    else if bc then Accepted(BcSize(accept, AToI(start), AToI(end)))
    else Accepted(NumRange(accept, AToI(start), AToI(end)))
  }

  function ParseBounds(accept: bool, start: string, end: string): Outcome
    requires start != []
  {
    if EndsWithB(start) then
      if end == [] then Undefined
      else if !EndsWithB(end) then Rejected
      else MakeRange(accept, true, start[..|start| - 1], end[..|end| - 1])
    else MakeRange(accept, false, start, end)
  }

  function ParseRange(accept: bool, s: string): Outcome
    requires s != [] && IsDigit(s[0])
  {
    var div := Find(s, "..", 0);
    if div < 0 then ParseBounds(accept, s, s) else ParseBounds(accept, s[..div], s[div + 2..])
  }

  function ParseName(accept: bool, s: string): Filter {
    var dot := Find(s, ".", 0);
    var width := if dot >= 0 then 1 else 2;
    var classEnd := if dot >= 0 then dot else Find(s, "::", 0);
    if classEnd < 0 then Name(accept, s, "", "")
    else
      var rest := classEnd + width;
      var methodEnd := Find(s, "(", rest);
      if methodEnd < 0 then Name(accept, s[..classEnd], s[rest..], "")
      else Name(accept, s[..classEnd], s[rest..methodEnd], s[methodEnd..])
  }

  function Parse(line: string): Outcome
    requires line != []
  {
    var accept := line[0] != '-';
    var s := if line[0] == '+' || line[0] == '-' then line[1..] else line;
    if s != [] && IsDigit(s[0]) then ParseRange(accept, s) else Accepted(ParseName(accept, s))
  }

  // ---------------------------------------------------------------------------------------------
  // The printer, and what filters the parser can produce
  // ---------------------------------------------------------------------------------------------

  function Body(f: Filter): string {
    match f
    case NumRange(_, lo, hi) => Decimal(lo) + ".." + Decimal(hi)
    case BcSize(_, lo, hi) => (Decimal(lo) + "b") + ".." + (Decimal(hi) + "b")
    case Name(_, c, m, sig) =>
      if c != "" && m == "" && sig == "" && Find(c, "::", 0) < 0 then c else c + "." + m + sig
  }

  function Print(f: Filter): (line: string)
    ensures line != []
  {
    (if f.accept then "+" else "-") + Body(f)
  }

  ghost predicate Canonical(f: Filter) {
    match f
    case NumRange(_, lo, hi) => lo <= hi <= MAX_NUM
    case BcSize(_, lo, hi) => lo <= hi <= MAX_NUM
    case Name(_, c, m, sig) =>
      && '.' !in c && (c == "" || !IsDigit(c[0]))
      && '(' !in m && (sig == "" || sig[0] == '(')
  }

  lemma FindIs(s: string, pat: string, from: nat, at: nat)
    requires from <= at && OccursAt(s, pat, at)
    requires forall i :: from <= i < at ==> !OccursAt(s, pat, i)
    ensures Find(s, pat, from) == at
  {
  }

  lemma FindNone(s: string, pat: string, from: nat)
    requires forall i :: from <= i ==> !OccursAt(s, pat, i)
    ensures Find(s, pat, from) == -1
  {
  }

  /** The first ".." of a range is the one between the numbers. */
  lemma RangeSplits(start: string, end: string)
    requires '.' !in start
    ensures Find(start + ".." + end, "..", 0) == |start|
    ensures (start + ".." + end)[..|start|] == start && (start + ".." + end)[|start| + 2..] == end
  {
    var s := start + ".." + end;
    assert s[|start|..|start| + 2] == "..";
    forall i | 0 <= i < |start| ensures !OccursAt(s, "..", i) {
      assert s[i..i + 2][0] == start[i];
    }
    FindIs(s, "..", 0, |start|);
  }

  lemma DigitsHaveNoDot(s: string)
    requires AllDigits(s)
    ensures '.' !in s && 'b' !in s && 'B' !in s
  {
  }

  lemma ParseRangeSplits(accept: bool, start: string, end: string)
    requires start != [] && IsDigit(start[0]) && '.' !in start
    ensures ParseRange(accept, start + ".." + end) == ParseBounds(accept, start, end)
  {
    RangeSplits(start, end);
  }

  lemma RangeRoundTrip(accept: bool, lo: nat, hi: nat)
    requires lo <= hi <= MAX_NUM
    ensures ParseRange(accept, Body(NumRange(accept, lo, hi))) == Accepted(NumRange(accept, lo, hi))
  {
    var a, b := Decimal(lo), Decimal(hi);
    DecimalIsNum(lo);
    DecimalIsNum(hi);
    DigitsHaveNoDot(a);
    ParseRangeSplits(accept, a, b);
    assert a[|a| - 1] in a;
  }

  lemma BcBoundsRoundTrip(accept: bool, a: string, b: string)
    ensures ParseBounds(accept, a + "b", b + "b") == MakeRange(accept, true, a, b)
  {
    var start, end := a + "b", b + "b";
    assert start[..|start| - 1] == a && end[..|end| - 1] == b;
  }

  lemma BcSizeRoundTrip(accept: bool, lo: nat, hi: nat)
    requires lo <= hi <= MAX_NUM
    ensures ParseRange(accept, Body(BcSize(accept, lo, hi))) == Accepted(BcSize(accept, lo, hi))
  {
    var a, b := Decimal(lo), Decimal(hi);
    DecimalIsNum(lo);
    DecimalIsNum(hi);
    DigitsHaveNoDot(a);
    BcBoundsRoundTrip(accept, a, b);
    ParseRangeSplits(accept, a + "b", b + "b");
  }

  lemma CharOccurs(s: string, c: char, i: nat)
    ensures OccursAt(s, [c], i) <==> i < |s| && s[i] == c
  {
    if i < |s| {
      assert s[i..i + 1] == [s[i]];
    }
  }

  lemma FindChar(s: string, c: char, from: nat, at: nat)
    requires from <= at < |s| && s[at] == c && c !in s[from..at]
    ensures Find(s, [c], from) == at
  {
    CharOccurs(s, c, at);
    forall i | from <= i < at ensures !OccursAt(s, [c], i) {
      CharOccurs(s, c, i);
      assert s[i] == s[from..at][i - from];
    }
    FindIs(s, [c], from, at);
  }

  lemma FindCharNone(s: string, c: char, from: nat)
    requires from <= |s| && c !in s[from..]
    ensures Find(s, [c], from) == -1
  {
    forall i | from <= i ensures !OccursAt(s, [c], i) {
      CharOccurs(s, c, i);
      if i < |s| { assert s[i] == s[from..][i - from]; }
    }
    FindNone(s, [c], from);
  }

  lemma QualifiedRoundTrip(accept: bool, c: string, m: string, sig: string)
    requires Canonical(Name(accept, c, m, sig))
    ensures ParseName(accept, c + "." + m + sig) == Name(accept, c, m, sig)
  {
    var s := c + "." + m + sig;
    var rest := |c| + 1;
    var at := rest + |m|;
    assert s[0..|c|] == c && s[..|c|] == c && s[|c|] == '.';
    FindChar(s, '.', 0, |c|);
    assert s[rest..at] == m && s[at..] == sig;
    if sig == "" {
      assert s[rest..] == m;
      FindCharNone(s, '(', rest);
    } else {
      assert s[at] == s[at..][0];
      FindChar(s, '(', rest, at);
    }
  }

  lemma ClassOnlyRoundTrip(accept: bool, c: string)
    requires '.' !in c && Find(c, "::", 0) < 0
    ensures ParseName(accept, c) == Name(accept, c, "", "")
  {
    forall i: nat ensures !OccursAt(c, ".", i) { CharOccurs(c, '.', i); }
    FindNone(c, ".", 0);
  }

  /** Printing a canonical filter and parsing the line gives the filter back. */
  lemma PrintParse(f: Filter)
    requires Canonical(f)
    ensures Parse(Print(f)) == Accepted(f)
  {
    var b := Body(f);
    assert Print(f)[1..] == b;
    match f
    case NumRange(accept, lo, hi) => RangeRoundTrip(accept, lo, hi);
    case BcSize(accept, lo, hi) => BcSizeRoundTrip(accept, lo, hi);
    case Name(accept, c, m, sig) =>
      if c != "" && m == "" && sig == "" && Find(c, "::", 0) < 0 {
        ClassOnlyRoundTrip(accept, c);
      } else {
        QualifiedRoundTrip(accept, c, m, sig);
        assert b != [] && b[0] == if c == "" then '.' else c[0];
      }
  }

  lemma FoundChar(s: string, c: char, from: nat)
    requires from <= |s|
    ensures var at := Find(s, [c], from);
            if at < 0 then c !in s[from..] else at < |s| && s[at] == c && c !in s[from..at]
  {
    var at := Find(s, [c], from);
    var end := if at < 0 then |s| else at;
    forall i | from <= i <= end ensures OccursAt(s, [c], i) <==> i < |s| && s[i] == c { CharOccurs(s, c, i); }
    assert forall i :: 0 <= i < end - from ==> s[from..end][i] == s[from + i];
  }

  lemma NoDotInClass(s: string)
    ensures var dot := Find(s, ".", 0);
            var classEnd := if dot >= 0 then dot else Find(s, "::", 0);
            if classEnd < 0 then '.' !in s else classEnd <= |s| && '.' !in s[..classEnd]
  {
    FoundChar(s, '.', 0);
    assert s[0..] == s;
  }

  lemma ParsedNameCanonical(accept: bool, s: string)
    requires s == [] || !IsDigit(s[0])
    ensures Canonical(ParseName(accept, s))
  {
    var dot := Find(s, ".", 0);
    var classEnd := if dot >= 0 then dot else Find(s, "::", 0);
    NoDotInClass(s);
    if classEnd >= 0 {
      FoundChar(s, '(', classEnd + if dot >= 0 then 1 else 2);
    }
  }

  lemma ParsedRangeCanonical(accept: bool, s: string)
    requires s != [] && IsDigit(s[0]) && ParseRange(accept, s).Accepted?
    ensures Canonical(ParseRange(accept, s).f)
  {
    var div := Find(s, "..", 0);
    var end := if div < 0 then s else s[div + 2..];
    if IsNum(end) { NumFits(end); }
    if end != [] && IsNum(end[..|end| - 1]) { NumFits(end[..|end| - 1]); }
  }

  /** Every accepted line gives a canonical filter; ranges satisfy start <= end <= 999999999. */
  lemma ParseIsCanonical(line: string)
    requires line != [] && Parse(line).Accepted?
    ensures Canonical(Parse(line).f)
  {
    var accept := line[0] != '-';
    var s := if line[0] == '+' || line[0] == '-' then line[1..] else line;
    if s != [] && IsDigit(s[0]) {
      ParsedRangeCanonical(accept, s);
    } else {
      ParsedNameCanonical(accept, s);
    }
  }

  /** The canonical filters are exactly those some line parses to. */
  lemma CanonicalIffParsed(f: Filter)
    ensures Canonical(f) <==> exists line: string :: line != [] && Parse(line) == Accepted(f)
  {
    if Canonical(f) {
      PrintParse(f);
    }
    if line: string :| line != [] && Parse(line) == Accepted(f) {
      ParseIsCanonical(line);
    }
  }

  /** Which lines make the source read an empty string backwards: a range whose start has the size suffix and
      whose end is empty. */
  lemma UndefinedIff(line: string)
    requires line != []
    ensures Parse(line).Undefined? <==>
            var s := if line[0] == '+' || line[0] == '-' then line[1..] else line;
            |s| >= 3 && IsDigit(s[0]) && Find(s, "..", 0) == |s| - 2 && EndsWithB(s[..|s| - 2])
  {
    var s := if line[0] == '+' || line[0] == '-' then line[1..] else line;
    if |s| >= 3 && IsDigit(s[0]) && Find(s, "..", 0) == |s| - 2 {
      assert s[|s| - 2 + 2..] == [];
    }
  }

  // ---------------------------------------------------------------------------------------------
  // The filter table
  // ---------------------------------------------------------------------------------------------

  datatype MethodInfo = MethodInfo(
    num: nat, className: string, methodName: string, signature: string, bytecodeLength: nat)

  predicate StartsWith(s: string, prefix: string) {
    |prefix| <= |s| && s[..|prefix|] == prefix
  }

  predicate Matches(f: Filter, m: MethodInfo) {
    match f
    case NumRange(_, lo, hi) => lo <= m.num <= hi
    case BcSize(_, lo, hi) => lo <= m.bytecodeLength <= hi
    case Name(_, c, n, sig) =>
      && (c == "" || StartsWith(m.className, c))
      && (n == "" || StartsWith(m.methodName, n))
      && (sig == "" || StartsWith(m.signature, sig))
  }

  /** The first matching filter decides; without one the method is accepted. */
  ghost predicate Decides(filters: seq<Filter>, m: MethodInfo, accepted: bool) {
    || (exists i :: 0 <= i < |filters| && Matches(filters[i], m) && filters[i].accept == accepted &&
                    forall j :: 0 <= j < i ==> !Matches(filters[j], m))
    || (accepted && forall i :: 0 <= i < |filters| ==> !Matches(filters[i], m))
  }

  lemma {:induction false} FirstMatch(filters: seq<Filter>, m: MethodInfo, k: nat) returns (i: nat)
    requires k < |filters| && Matches(filters[k], m)
    ensures i <= k && Matches(filters[i], m) && forall j :: 0 <= j < i ==> !Matches(filters[j], m)
  {
    if j :| 0 <= j < k && Matches(filters[j], m) {
      i := FirstMatch(filters, m, j);
    } else {
      i := k;
    }
  }

  lemma DecisionUnique(filters: seq<Filter>, m: MethodInfo)
    ensures Decides(filters, m, true) <==> !Decides(filters, m, false)
  {
    if k :| 0 <= k < |filters| && Matches(filters[k], m) {
      var i := FirstMatch(filters, m, k);
      assert Decides(filters, m, filters[i].accept);
    }
  }

  ghost predicate Matched(filters: seq<Filter>, m: MethodInfo) {
    exists i :: 0 <= i < |filters| && Matches(filters[i], m)
  }

  lemma MatchedLast(filters: seq<Filter>, f: Filter, m: MethodInfo)
    ensures Matched(filters + [f], m) <==> Matched(filters, m) || Matches(f, m)
  {
    var all := filters + [f];
    assert all[|filters|] == f && forall i :: 0 <= i < |filters| ==> all[i] == filters[i];
  }

  /** A filter added later changes the decision only for methods no earlier filter matches. */
  lemma LaterFilterYields(filters: seq<Filter>, f: Filter, m: MethodInfo, accepted: bool)
    requires Decides(filters, m, accepted)
    ensures Decides(filters + [f], m, if Matched(filters, m) || !Matches(f, m) then accepted else f.accept)
  {
    var all := filters + [f];
    assert all[|filters|] == f && forall i :: 0 <= i < |filters| ==> all[i] == filters[i];
    if k :| 0 <= k < |filters| && Matches(filters[k], m) {
      var i := FirstMatch(filters, m, k);
      assert Matches(all[i], m) && all[i].accept == accepted;
    }
  }

  /** The same for at most one added filter. */
  lemma EntryYields(filters: seq<Filter>, e: seq<Filter>, m: MethodInfo, accepted: bool)
    requires |e| <= 1 && Decides(filters, m, accepted)
    ensures Decides(filters + e, m, if Matched(filters, m) || !Matched(e, m) then accepted else e[0].accept)
    ensures Matched(filters + e, m) <==> Matched(filters, m) || Matched(e, m)
  {
    if e == [] {
      assert filters + e == filters;
    } else {
      assert e == [e[0]];
      LaterFilterYields(filters, e[0], m, accepted);
      MatchedLast(filters, e[0], m);
    }
  }

  // ---------------------------------------------------------------------------------------------
  // What the configuration lines say, read from the top
  // ---------------------------------------------------------------------------------------------

  /** The filter of a line, if it has one. */
  function FilterOf(line: string): (r: seq<Filter>)
    ensures |r| <= 1
  {
    if line != [] && Parse(line).Accepted? then [Parse(line).f] else []
  }

  /** The filters of the accepted lines, in order. */
  function FiltersOf(lines: seq<string>): seq<Filter> {
    if lines == [] then [] else FiltersOf(lines[..|lines| - 1]) + FilterOf(lines[|lines| - 1])
  }

  ghost predicate LineMatches(line: string, m: MethodInfo) {
    Matched(FilterOf(line), m)
  }

  /** The first line that matches the method decides; lines that are no filter are skipped. */
  ghost predicate Accepts(lines: seq<string>, m: MethodInfo) {
    if lines == [] then true
    else if LineMatches(lines[0], m) then FilterOf(lines[0])[0].accept
    else Accepts(lines[1..], m)
  }

  /** Some line matches the method. */
  ghost predicate Touched(lines: seq<string>, m: MethodInfo) {
    exists i :: 0 <= i < |lines| && LineMatches(lines[i], m)
  }

  lemma TouchedLast(lines: seq<string>, last: string, m: MethodInfo)
    ensures Touched(lines + [last], m) <==> Touched(lines, m) || LineMatches(last, m)
  {
    var all := lines + [last];
    assert all[|lines|] == last && forall i :: 0 <= i < |lines| ==> all[i] == lines[i];
  }

  /** A line added at the end decides only for methods that no earlier line matches. */
  lemma {:induction false} LastLineYields(lines: seq<string>, last: string, m: MethodInfo)
    ensures Accepts(lines + [last], m) ==
            if Touched(lines, m) || !LineMatches(last, m) then Accepts(lines, m) else FilterOf(last)[0].accept
  {
    if lines == [] {
      assert lines + [last] == [last] && [last][1..] == [];
    } else {
      var rest := lines[1..];
      assert (lines + [last])[1..] == rest + [last];
      LastLineYields(rest, last, m);
      assert Touched(lines, m) <==> LineMatches(lines[0], m) || Touched(rest, m) by {
        assert lines == [lines[0]] + rest;
        if i :| 0 <= i < |rest| && LineMatches(rest[i], m) { assert lines[i + 1] == rest[i]; }
        if i :| 0 < i < |lines| && LineMatches(lines[i], m) { assert rest[i - 1] == lines[i]; }
      }
    }
  }

  /** The decision of the filters is that of the lines read from the top. */
  lemma {:induction false} LinesDecide(lines: seq<string>, m: MethodInfo)
    ensures Decides(FiltersOf(lines), m, Accepts(lines, m))
    ensures Touched(lines, m) <==> Matched(FiltersOf(lines), m)
  {
    if lines != [] {
      var up, last := lines[..|lines| - 1], lines[|lines| - 1];
      LinesDecide(up, m);
      assert lines == up + [last];
      LastLineYields(up, last, m);
      TouchedLast(up, last, m);
      EntryYields(FiltersOf(up), FilterOf(last), m, Accepts(up, m));
    }
  }

  lemma DecidedByLines(lines: seq<string>, m: MethodInfo, accepted: bool)
    requires Decides(FiltersOf(lines), m, accepted)
    ensures accepted == Accepts(lines, m)
  {
    LinesDecide(lines, m);
    DecisionUnique(FiltersOf(lines), m);
  }

  /** Decisions stand: whatever lines follow, a method that some line matches is decided as before. */
  lemma {:induction false} DecisionsStand(lines: seq<string>, more: seq<string>, m: MethodInfo)
    requires Touched(lines, m)
    ensures Touched(lines + more, m) && Accepts(lines + more, m) == Accepts(lines, m)
  {
    if more == [] {
      assert lines + more == lines;
    } else {
      var up := lines + more[..|more| - 1];
      assert lines + more == up + [more[|more| - 1]];
      DecisionsStand(lines, more[..|more| - 1], m);
      LastLineYields(up, more[|more| - 1], m);
      TouchedLast(up, more[|more| - 1], m);
    }
  }

  class MTable {
    var methodFilters: seq<Filter>
    ghost var lines: seq<string>    // every line given so far

    ghost predicate Valid()
      reads this
    {
      methodFilters == FiltersOf(lines)
    }

    constructor ()
      ensures Valid() && lines == []
    {
      methodFilters, lines := [], [];
    }

    /** A line with a number first: a range of method numbers or of bytecode sizes. */
    method AddRange(accept: bool, s: string) returns (ok: bool)
      requires s != [] && IsDigit(s[0]) && !ParseRange(accept, s).Undefined?
      modifies this`methodFilters
      ensures ok <==> ParseRange(accept, s).Accepted?
      ensures methodFilters == old(methodFilters) + if ok then [ParseRange(accept, s).f] else []
    {
      var start, end := s, s;
      var div := Find(s, "..", 0);
      if div >= 0 {
        start, end := s[..div], s[div + 2..];
      }
      var bc := false;
      if EndsWithB(start) {
        if !EndsWithB(end) {
          return false;
        }
        start, end, bc := start[..|start| - 1], end[..|end| - 1], true;
      }
      if !IsNum(start) || !IsNum(end) {
        return false;
      }
      var lo, hi := AToI(start), AToI(end);
      if lo > hi {
        return false;
      }
      methodFilters := methodFilters + [if bc then BcSize(accept, lo, hi) else NumRange(accept, lo, hi)];
      return true;
    }

    /** Any other line: class name, method name and signature. */
    method AddName(accept: bool, s: string)
      modifies this`methodFilters
      ensures methodFilters == old(methodFilters) + [ParseName(accept, s)]
    {
      var className, methodName, signature := "", "", "";
      var width := 1;
      var classEnd := Find(s, ".", 0);
      if classEnd < 0 {
        width := 2;
        classEnd := Find(s, "::", 0);
      }
      if classEnd < 0 {
        className := s;
      } else {
        className := s[..classEnd];
        var methodEnd := Find(s, "(", classEnd + width);
        if methodEnd < 0 {
          methodName := s[classEnd + width..];
        } else {
          methodName, signature := s[classEnd + width..methodEnd], s[methodEnd..];
        }
      }
      methodFilters := methodFilters + [Name(accept, className, methodName, signature)];
    }

    /** After any lines the table stands for them, read from the top: an accepted line adds a canonical filter that
        parses back from its printed form, a rejected one leaves the table alone, and decisions stand. */
    method AddMethodFilter(line: string) returns (ok: bool)
      requires Valid() && line != [] && !Parse(line).Undefined?
      modifies this
      ensures Valid() && lines == old(lines) + [line]
      ensures !ok ==> methodFilters == old(methodFilters)
      ensures ok ==>
                exists f :: methodFilters == old(methodFilters) + [f] && Canonical(f) && Parse(Print(f)) == Accepted(f)
      ensures forall m :: Touched(old(lines), m) ==> Accepts(lines, m) == Accepts(old(lines), m)
    {
      ghost var before := lines;
      var accept := line[0] != '-';
      var s := if line[0] == '+' || line[0] == '-' then line[1..] else line;
      if s != [] && IsDigit(s[0]) {
        ok := AddRange(accept, s);
      } else {
        AddName(accept, s);
        ok := true;
      }
      lines := lines + [line];
      assert lines[..|before|] == before;
      forall m | Touched(before, m) ensures Accepts(lines, m) == Accepts(before, m) {
        LastLineYields(before, line, m);
      }
      if ok {
        ParseIsCanonical(line);
        PrintParse(Parse(line).f);
      }
    }

    method AcceptMethod(m: MethodInfo) returns (accepted: bool)
      requires Valid()
      ensures Decides(methodFilters, m, accepted) && accepted == Accepts(lines, m)
    {
      var i := 0;
      while i < |methodFilters|
        invariant 0 <= i <= |methodFilters|
        invariant forall j :: 0 <= j < i ==> !Matches(methodFilters[j], m)
      {
        if Matches(methodFilters[i], m) {
          DecidedByLines(lines, m, methodFilters[i].accept);
          return methodFilters[i].accept;
        }
        i := i + 1;
      }
      DecidedByLines(lines, m, true);
      return true;
    }
  }
}
