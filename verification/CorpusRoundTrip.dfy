/** What survives being written to a corpus file and read back
    (internal/testfile/testfile.go:61-206). */
module CorpusRoundTrip {
  import opened Tokens
  import opened Corpus

  predicate IsSeparator(line: string) { line == CASE_SEPARATOR || line == PART_SEPARATOR }

  predicate Storable(sql: string) {
    var ls := Split(sql);
    && sql != "" && ls[0] != "" && !HasPrefix(ls[0], "#")
    && forall i :: 0 <= i < |ls| ==> !IsSeparator(ls[i])
  }

  /** CanStore. */
  method CanStore(sql: string) returns (ok: bool)
    ensures ok == Storable(sql)
  {
    if sql == "" {
      return false;
    }
    var ls := Split(sql);
    if ls[0] == "" || HasPrefix(ls[0], "#") {
      return false;
    }
    for k := 0 to |ls|
      invariant forall i :: 0 <= i < k ==> !IsSeparator(ls[i])
    {
      if ls[k] == CASE_SEPARATOR || ls[k] == PART_SEPARATOR {
        return false;
      }
    }
    return true;
  }

  predicate NoCr(ls: seq<string>) { forall i :: 0 <= i < |ls| ==> !EndsInCr(ls[i]) }

  predicate PlainLine(s: string) { OneLine(s) && !EndsInCr(s) }

  predicate StorableCase(c: Case, index: nat) {
    && Storable(c.sql) && NoCr(Split(c.sql)) && c.index == index
    && (if c.reject then PlainLine(c.error) else c.error == "")
  }

  predicate StorableFile(f: File) {
    && (forall i :: 0 <= i < |f.header| ==> PlainLine(f.header[i]))
    && forall i :: 0 <= i < |f.cases| ==> StorableCase(f.cases[i], i)
  }

  // ----- reading what was written -----

  lemma ReadStep(r: Reader, line: string, rest: seq<string>)
    ensures ReadLines(r, [line] + rest) == match Step(r, line)
      case None => None
      case Some(next) => ReadLines(next, rest)
  {
    assert ([line] + rest)[1..] == rest;
  }

  lemma {:induction false} HeaderRead(r: Reader, hs: seq<string>, rest: seq<string>)
    requires !r.headerDone
    ensures ReadLines(r, HeaderLines(hs) + rest) == ReadLines(r.(file := File(r.file.header + hs, r.file.cases)), rest)
    decreases |hs|
  {
    if hs == [] {
      assert HeaderLines(hs) + rest == rest && r.file.header + hs == r.file.header;
    } else {
      var line := "# " + hs[0];
      assert HeaderLines(hs) + rest == [line] + (HeaderLines(hs[1..]) + rest);
      ReadStep(r, line, HeaderLines(hs[1..]) + rest);
      CommentLine(hs[0]);
      var next := r.(file := File(r.file.header + [hs[0]], r.file.cases));
      HeaderRead(next, hs[1..], rest);
      assert r.file.header + [hs[0]] + hs[1..] == r.file.header + hs;
    }
  }

  lemma CommentLine(h: string)
    ensures HasPrefix("# " + h, "#") && TrimPrefix(TrimPrefix("# " + h, "#"), " ") == h
  {
    assert ("# " + h)[..1] == "#" && ("# " + h)[1..] == " " + h;
    assert (" " + h)[..1] == " " && (" " + h)[1..] == h;
  }

  lemma {:induction false} SqlRead(r: Reader, ls: seq<string>, rest: seq<string>)
    requires r.headerDone && r.sawContent && !r.inExpectation
    requires forall i :: 0 <= i < |ls| ==> !IsSeparator(ls[i])
    ensures ReadLines(r, ls + rest) == ReadLines(r.(sql := r.sql + ls), rest)
    decreases |ls|
  {
    if ls == [] {
      assert ls + rest == rest && r.sql + ls == r.sql;
    } else {
      assert ls + rest == [ls[0]] + (ls[1..] + rest);
      ReadStep(r, ls[0], ls[1..] + rest);
      SqlRead(r.(sql := r.sql + [ls[0]]), ls[1..], rest);
      assert r.sql + [ls[0]] + ls[1..] == r.sql + ls;
    }
  }

  /** Between cases: nothing collected yet. */
  predicate AtRest(r: Reader) { r.sql == [] && r.expectation == [] && !r.inExpectation && !r.sawContent }

  function WithCase(r: Reader, c: Case): Reader {
    r.(file := File(r.file.header, r.file.cases + [c]), headerDone := true)
  }

  /** A case's lines are read as that case. */
  lemma CaseRead(r: Reader, c: Case, rest: seq<string>)
    requires AtRest(r) && StorableCase(c, |r.file.cases|)
    ensures ReadLines(r, CaseLines(c) + rest) == ReadLines(WithCase(r, c), rest)
  {
    var ls := Split(c.sql);
    var tail := [PART_SEPARATOR, Verdict(c), CASE_SEPARATOR] + rest;
    assert CaseLines(c) + rest == [ls[0]] + (ls[1..] + tail);
    ReadStep(r, ls[0], ls[1..] + tail);
    var begun := r.(headerDone := true, sawContent := true, sql := [ls[0]]);
    assert [] + [ls[0]] == [ls[0]];
    SqlRead(begun, ls[1..], tail);
    assert [ls[0]] + ls[1..] == ls;
    SplitJoins(c.sql);
    VerdictRead(begun.(sql := ls), c, rest);
  }

  lemma VerdictRead(r: Reader, c: Case, rest: seq<string>)
    requires r.headerDone && r.sawContent && !r.inExpectation && r.expectation == [] && Join(r.sql) == c.sql
    requires StorableCase(c, |r.file.cases|)
    ensures ReadLines(r, [PART_SEPARATOR, Verdict(c), CASE_SEPARATOR] + rest)
      == ReadLines(WithCase(r.(sql := [], inExpectation := false, sawContent := false), c), rest)
  {
    var v := Verdict(c);
    VerdictLine(c);
    assert [PART_SEPARATOR, v, CASE_SEPARATOR] + rest == [PART_SEPARATOR] + ([v] + ([CASE_SEPARATOR] + rest));
    ReadStep(r, PART_SEPARATOR, [v] + ([CASE_SEPARATOR] + rest));
    var expecting := r.(inExpectation := true);
    ReadStep(expecting, v, [CASE_SEPARATOR] + rest);
    assert [] + [v] == [v];
    ReadStep(expecting.(expectation := [v]), CASE_SEPARATOR, rest);
  }

  lemma VerdictLine(c: Case)
    requires c.reject || c.error == ""
    ensures !IsSeparator(Verdict(c)) && Verdict(c) != "" && CaseOf(c.sql, Verdict(c), c.index) == Some(c)
  {
    if c.reject {
      assert Verdict(c)[..7] == "error: " && Verdict(c)[7..] == c.error;
      assert Verdict(c)[0] == 'e';
    }
  }

  lemma {:induction false} CasesRead(r: Reader, cs: seq<Case>)
    requires AtRest(r) && forall i :: 0 <= i < |cs| ==> StorableCase(cs[i], |r.file.cases| + i)
    ensures ReadLines(r, AllCaseLines(cs)) == Some(File(r.file.header, r.file.cases + cs))
    decreases |cs|
  {
    if cs == [] {
      assert r.file.cases + cs == r.file.cases;
    } else {
      CaseRead(r, cs[0], AllCaseLines(cs[1..]));
      CasesRead(WithCase(r, cs[0]), cs[1..]);
      assert r.file.cases + [cs[0]] + cs[1..] == r.file.cases + cs;
    }
  }

  lemma {:induction false} CasesArePlain(cs: seq<Case>)
    requires forall i :: 0 <= i < |cs| ==> StorableCase(cs[i], cs[i].index)
    ensures forall i :: 0 <= i < |AllCaseLines(cs)| ==> PlainLine(AllCaseLines(cs)[i])
  {
    if cs != [] {
      CasesArePlain(cs[1..]);
      SplitJoins(cs[0].sql);
      VerdictIsPlain(cs[0]);
    }
  }

  lemma VerdictIsPlain(c: Case)
    requires c.reject ==> PlainLine(c.error)
    ensures PlainLine(Verdict(c))
  {
    if c.reject && c.error != "" {
      assert Verdict(c)[|Verdict(c)| - 1] == c.error[|c.error| - 1];
    }
  }

  /** Every file of storable single-line parts comes back the same: cases, verdicts and header. */
  lemma WrittenReadsBack(f: File)
    requires StorableFile(f)
    ensures ReadText(Unlines(FileLines(f))) == Some(f)
  {
    WrittenIsScanned(f);
    WrittenIsRead(f);
  }

  lemma WrittenIsScanned(f: File)
    requires StorableFile(f)
    ensures Scanned(Unlines(FileLines(f))) == FileLines(f)
  {
    var ls := FileLines(f);
    CasesArePlain(f.cases);
    HeadingIsPlain(f.header);
    PlainTogether(Heading(f.header), AllCaseLines(f.cases));
    PlainIsScanned(ls);
  }

  lemma PlainTogether(a: seq<string>, b: seq<string>)
    requires forall i :: 0 <= i < |a| ==> PlainLine(a[i])
    requires forall i :: 0 <= i < |b| ==> PlainLine(b[i])
    ensures forall i :: 0 <= i < |a + b| ==> PlainLine((a + b)[i])
  {
  }

  lemma PlainIsScanned(ls: seq<string>)
    requires forall i :: 0 <= i < |ls| ==> PlainLine(ls[i])
    ensures Scanned(Unlines(ls)) == ls
  {
    ScannedUnlines(ls);
    assert DropCrs(ls) == ls;
  }

  lemma WrittenIsRead(f: File)
    requires StorableFile(f)
    ensures ReadLines(START, FileLines(f)) == Some(f)
  {
    HeadingRead(f.header, AllCaseLines(f.cases));
    CasesRead(START.(file := File(f.header, [])), f.cases);
    assert [] + f.cases == f.cases;
  }

  lemma HeadingRead(hs: seq<string>, body: seq<string>)
    ensures ReadLines(START, Heading(hs) + body) == ReadLines(START.(file := File(hs, [])), body)
  {
    var gap := if hs == [] then [] else [""];
    assert Heading(hs) + body == HeaderLines(hs) + (gap + body);
    HeaderRead(START, hs, gap + body);
    assert START.file.header + hs == hs;
    GapRead(START.(file := File(hs, [])), gap, body);
  }

  lemma GapRead(r: Reader, gap: seq<string>, rest: seq<string>)
    requires !r.headerDone && (gap == [] || gap == [""])
    ensures ReadLines(r, gap + rest) == ReadLines(r, rest)
  {
    if gap == [] {
      assert gap + rest == rest;
    } else {
      ReadStep(r, "", rest);
    }
  }

  lemma HeadingIsPlain(hs: seq<string>)
    requires forall i :: 0 <= i < |hs| ==> PlainLine(hs[i])
    ensures forall i :: 0 <= i < |Heading(hs)| ==> PlainLine(Heading(hs)[i])
  {
    forall i | 0 <= i < |hs|
      ensures PlainLine("# " + hs[i])
    {
      var l := "# " + hs[i];
      assert hs[i] != "" ==> l[|l| - 1] == hs[i][|hs[i]| - 1];
    }
  }

  // ----- one statement by itself -----

  function Alone(sql: string): File { File([], [Case(sql, false, "", 0)]) }

  /** The statement, written as a file's only case and read back, is the file's only case. */
  predicate RoundTrips(sql: string) {
    ReadText(Unlines(FileLines(Alone(sql)))) == Some(Alone(sql))
  }

  /** The length of lines with their newlines. */
  function Weight(ls: seq<string>): nat {
    if ls == [] then 0 else |ls[0]| + 1 + Weight(ls[1..])
  }

  /** The lines up to the first part separator. */
  function BeforePart(ls: seq<string>): seq<string> {
    if ls == [] || ls[0] == PART_SEPARATOR then [] else [ls[0]] + BeforePart(ls[1..])
  }

  function LessOne(n: nat): nat { if n == 0 then 0 else n - 1 }

  lemma {:induction false} WeightJoin(a: seq<string>, b: seq<string>)
    ensures Weight(a + b) == Weight(a) + Weight(b)
  {
    if a == [] {
      assert a + b == b;
    } else {
      WeightJoin(a[1..], b);
      assert (a + b)[1..] == a[1..] + b;
    }
  }

  lemma {:induction false} WeightOfJoined(ls: seq<string>)
    ensures |Join(ls)| == LessOne(Weight(ls))
  {
    if |ls| > 1 {
      WeightOfJoined(ls[1..]);
    } else if |ls| == 1 {
      assert ls[1..] == [];
    }
  }

  /** A completed case stays. */
  lemma {:induction false} FirstCaseStays(r: Reader, ls: seq<string>, f: File)
    requires r.file.cases != [] && ReadLines(r, ls) == Some(f)
    ensures f.cases != [] && f.cases[0] == r.file.cases[0]
    decreases |ls|
  {
    if ls == [] {
      FlushKeepsFirst(r, Flushed(r).value);
    } else {
      StepKeepsFirst(r, ls[0], Step(r, ls[0]).value);
      FirstCaseStays(Step(r, ls[0]).value, ls[1..], f);
    }
  }

  lemma FlushKeepsFirst(r: Reader, next: Reader)
    requires r.file.cases != [] && Flushed(r) == Some(next)
    ensures next.file.cases != [] && next.file.cases[0] == r.file.cases[0]
  {
  }

  lemma StepKeepsFirst(r: Reader, line: string, next: Reader)
    requires r.file.cases != [] && Step(r, line) == Some(next)
    ensures next.file.cases != [] && next.file.cases[0] == r.file.cases[0]
  {
  }

  predicate Consistent(r: Reader) {
    && r.file.cases == []
    && (r.inExpectation ==> r.sawContent && r.headerDone)
    && (!r.inExpectation ==> r.expectation == [] && (r.sawContent <==> r.sql != []))
    && (r.sawContent ==> r.headerDone)
  }

  /** What the first case's statement has collected, with all it may still collect: no line after the
      part separator. */
  function Collectable(r: Reader, ls: seq<string>): nat {
    Weight(r.sql) + (if r.inExpectation then 0 else Weight(BeforePart(ls)))
  }

  /** How long the first case's statement can get: nothing counts that is not collected. */
  lemma {:induction false} FirstCaseBounded(r: Reader, ls: seq<string>, f: File)
    requires Consistent(r) && ReadLines(r, ls) == Some(f) && f.cases != []
    ensures |f.cases[0].sql| <= LessOne(Collectable(r, ls))
    decreases |ls|
  {
    if ls == [] {
      FlushBounded(r, Flushed(r).value);
    } else {
      var next := Step(r, ls[0]).value;
      if next.file.cases != [] {
        StepFlushes(r, ls[0], next);
        FirstCaseStays(next, ls[1..], f);
      } else {
        StepConsistent(r, ls[0], next);
        FirstCaseBounded(next, ls[1..], f);
        assert ls == [ls[0]] + ls[1..];
        StepBounded(r, ls[0], ls[1..], next);
      }
    }
  }

  lemma FlushBounded(r: Reader, next: Reader)
    requires r.file.cases == [] && Flushed(r) == Some(next) && next.file.cases != []
    ensures |next.file.cases[0].sql| == LessOne(Weight(r.sql))
  {
    WeightOfJoined(r.sql);
  }

  /** A line that completes the first case leaves its statement as it was collected. */
  lemma StepFlushes(r: Reader, line: string, next: Reader)
    requires r.file.cases == [] && Step(r, line) == Some(next) && next.file.cases != []
    ensures |next.file.cases[0].sql| == LessOne(Weight(r.sql))
  {
    FlushBounded(r.(headerDone := true), next);
  }

  lemma StepConsistent(r: Reader, line: string, next: Reader)
    requires Consistent(r) && Step(r, line) == Some(next) && next.file.cases == []
    ensures Consistent(next)
  {
  }

  /** One line adds at most its own weight to the statement. */
  lemma StepBounded(r: Reader, line: string, more: seq<string>, next: Reader)
    requires Consistent(r) && Step(r, line) == Some(next) && next.file.cases == []
    ensures Collectable(next, more) <= Collectable(r, [line] + more)
  {
    WeightJoin(r.sql, [line]);
    WeightOfMore(line, []);
    WeightOfMore(line, BeforePart(more));
    assert ([line] + more)[0] == line && ([line] + more)[1..] == more;
    assert PART_SEPARATOR[0] == '-' && CASE_SEPARATOR[0] == '=';
    assert line == PART_SEPARATOR ==> !HasPrefix(line, "#");
    assert !r.inExpectation && line != PART_SEPARATOR ==> next.sql == r.sql || next.sql == r.sql + [line];
  }

  lemma WeightOfMore(line: string, rest: seq<string>)
    ensures Weight([line] + rest) == |line| + 1 + Weight(rest)
  {
    assert ([line] + rest)[1..] == rest;
  }

  /** Reading drops no line of the statement only if it has no separator, and does not begin with
      a line that is dropped. */
  lemma {:induction false} NothingLost(r: Reader, ls: seq<string>, rest: seq<string>, f: File)
    requires Consistent(r) && !r.inExpectation && Weight(r.sql) + Weight(ls) >= 2
    requires rest != [] && rest[0] == PART_SEPARATOR
    requires forall i :: 0 <= i < |ls| ==> ls[i] != PART_SEPARATOR
    requires ReadLines(r, ls + rest) == Some(f) && f.cases != []
    requires |f.cases[0].sql| + 1 >= Weight(r.sql) + Weight(ls)
    ensures forall i :: 0 <= i < |ls| ==> !IsSeparator(ls[i])
    ensures r.sql == [] && ls != [] ==> ls[0] != "" && (!r.headerDone ==> !HasPrefix(ls[0], "#"))
    decreases |ls|
  {
    if ls != [] {
      var line, next := ls[0], Step(r, ls[0]).value;
      assert ls + rest == [line] + (ls[1..] + rest);
      ReadStep(r, line, ls[1..] + rest);
      StatementLine(r, line, next);
      BeforeRest(ls[1..], rest);
      FirstCaseBounded(next, ls[1..] + rest, f);
      assert next.sql == r.sql + [line];
      WeightJoin(r.sql, [line]);
      WeightOfMore(line, []);
      NothingLost(next, ls[1..], rest, f);
    }
  }

  /** Before the part separator a line is collected or dropped; a separator is dropped, and so is
      what does not begin a statement. */
  lemma StatementLine(r: Reader, line: string, next: Reader)
    requires Consistent(r) && !r.inExpectation && line != PART_SEPARATOR && Step(r, line) == Some(next)
    ensures Consistent(next) && !next.inExpectation
    ensures next.sql == r.sql || next.sql == r.sql + [line]
    ensures next.sql != r.sql ==>
      !IsSeparator(line) && (r.sql == [] ==> line != "" && (!r.headerDone ==> !HasPrefix(line, "#")))
  {
  }

  lemma {:induction false} BeforeRest(ls: seq<string>, rest: seq<string>)
    requires forall i :: 0 <= i < |ls| ==> ls[i] != PART_SEPARATOR
    requires rest != [] && rest[0] == PART_SEPARATOR
    ensures BeforePart(ls + rest) == ls
  {
    if ls == [] {
      assert ls + rest == rest;
    } else {
      BeforeRest(ls[1..], rest);
      assert (ls + rest)[1..] == ls[1..] + rest;
    }
  }

  lemma {:induction false} WeightBefore(ls: seq<string>, rest: seq<string>)
    requires rest != [] && rest[0] == PART_SEPARATOR
    ensures Weight(BeforePart(ls + rest)) <= Weight(ls)
    ensures Weight(BeforePart(ls + rest)) == Weight(ls) ==> forall i :: 0 <= i < |ls| ==> ls[i] != PART_SEPARATOR
  {
    if ls == [] {
      assert ls + rest == rest;
    } else {
      WeightBefore(ls[1..], rest);
      assert (ls + rest)[1..] == ls[1..] + rest;
      WeightOfMore(ls[0], BeforePart(ls[1..] + rest));
    }
  }

  lemma {:induction false} WeightWithoutCrs(ls: seq<string>)
    ensures Weight(DropCrs(ls)) <= Weight(ls)
    ensures Weight(DropCrs(ls)) == Weight(ls) ==> NoCr(ls)
  {
    if ls != [] {
      WeightWithoutCrs(ls[1..]);
      assert DropCrs(ls)[1..] == DropCrs(ls[1..]);
    }
  }

  const ACCEPTED: seq<string> := [PART_SEPARATOR, "ok", CASE_SEPARATOR]

  lemma AloneAsLines(sql: string)
    ensures Scanned(Unlines(FileLines(Alone(sql)))) == DropCrs(Split(sql)) + ACCEPTED
  {
    AloneFileLines(sql);
    SplitJoins(sql);
    AcceptedIsPlain();
    LinesTogether(Split(sql), ACCEPTED);
    ScannedUnlines(Split(sql) + ACCEPTED);
  }

  lemma LinesTogether(a: seq<string>, b: seq<string>)
    requires forall i :: 0 <= i < |a| ==> OneLine(a[i])
    requires forall i :: 0 <= i < |b| ==> OneLine(b[i])
    ensures forall i :: 0 <= i < |a + b| ==> OneLine((a + b)[i])
    ensures DropCrs(a + b) == DropCrs(a) + DropCrs(b)
  {
  }

  lemma AcceptedIsPlain()
    ensures forall i :: 0 <= i < |ACCEPTED| ==> PlainLine(ACCEPTED[i])
    ensures DropCrs(ACCEPTED) == ACCEPTED
  {
  }

  lemma AloneFileLines(sql: string)
    ensures FileLines(Alone(sql)) == Split(sql) + ACCEPTED
  {
    var c := Case(sql, false, "", 0);
    assert [c][1..] == [];
    assert AllCaseLines([c]) == CaseLines(c) + [];
    assert Heading([]) == [];
  }

  /** An empty statement survives: its one blank line is dropped and nothing is missed. */
  lemma EmptyRoundTrips()
    ensures RoundTrips("")
  {
    AloneAsLines("");
    assert DropCrs([""]) == [""];
    ReadStep(START, "", ACCEPTED);
    EmptyAccepted();
  }

  lemma EmptyAccepted()
    ensures ReadLines(START, ACCEPTED) == Some(Alone(""))
  {
    var c := Case("", false, "", 0);
    assert ACCEPTED == [PART_SEPARATOR] + (["ok"] + [CASE_SEPARATOR]);
    ReadStep(START, PART_SEPARATOR, ["ok"] + [CASE_SEPARATOR]);
    var r := START.(headerDone := true, inExpectation := true, sawContent := true);
    ReadStep(r, "ok", [CASE_SEPARATOR]);
    assert [] + ["ok"] == ["ok"];
    ReadStep(r.(expectation := ["ok"]), CASE_SEPARATOR, []);
    assert [CASE_SEPARATOR] + [] == [CASE_SEPARATOR];
    assert [] + [c] == [c];
  }

  lemma LostUnlessStorable(sql: string)
    requires sql != "" && RoundTrips(sql)
    ensures Storable(sql) && NoCr(Split(sql))
  {
    AloneAsLines(sql);
    SplitJoins(sql);
    WeightOfJoined(Split(sql));
    AllCollected(sql, Split(sql), DropCrs(Split(sql)), Alone(sql));
  }

  lemma AllCollected(sql: string, parts: seq<string>, ls: seq<string>, f: File)
    requires sql != "" && parts == Split(sql) && ls == DropCrs(parts) && |sql| == LessOne(Weight(parts))
    requires ReadLines(START, ls + ACCEPTED) == Some(f) && f.cases != [] && f.cases[0].sql == sql
    ensures Storable(sql) && NoCr(parts)
  {
    NothingShorter(|sql|, parts, ls, f);
    NothingLost(START, ls, ACCEPTED, f);
  }

  /** A statement read back at its full length has no carriage return to drop, and no part separator. */
  lemma NothingShorter(length: nat, parts: seq<string>, ls: seq<string>, f: File)
    requires length > 0 && ls == DropCrs(parts) && length == LessOne(Weight(parts))
    requires ReadLines(START, ls + ACCEPTED) == Some(f) && f.cases != [] && |f.cases[0].sql| == length
    ensures NoCr(parts) && ls == parts && Weight(ls) == length + 1
    ensures forall i :: 0 <= i < |ls| ==> ls[i] != PART_SEPARATOR
  {
    FirstCaseBounded(START, ls + ACCEPTED, f);
    WeightBefore(ls, ACCEPTED);
    WeightWithoutCrs(parts);
    assert ls == parts;
  }

  /** Which statements survive by themselves, exactly. */
  lemma RoundTripsIff(sql: string)
    ensures RoundTrips(sql) <==> sql == "" || (Storable(sql) && NoCr(Split(sql)))
  {
    if sql == "" {
      EmptyRoundTrips();
    } else if Storable(sql) && NoCr(Split(sql)) {
      WrittenReadsBack(Alone(sql));
    } else if RoundTrips(sql) {
      LostUnlessStorable(sql);
    }
  }

  /** CanStore tells whether a statement survives, except that it refuses the empty statement,
      which does, and takes lines that end in a carriage return, which the scanner drops. */
  lemma CanStoreIsRightIff(sql: string)
    ensures (Storable(sql) <==> RoundTrips(sql)) <==> sql != "" && (Storable(sql) ==> NoCr(Split(sql)))
  {
    RoundTripsIff(sql);
  }

  /** A first line that ends in a carriage return is taken, and is not one reading keeps. */
  lemma CrLineStorable(s: string, line: string, ls: seq<string>)
    requires Split(s) == [line] + ls && s != "" && line != "" && EndsInCr(line) && !HasPrefix(line, "#")
    requires forall i :: 0 <= i < |ls| ==> !IsSeparator(ls[i])
    ensures Storable(s) && !NoCr(Split(s))
  {
    assert Split(s)[0] == line;
    forall i | 0 <= i < |Split(s)|
      ensures !IsSeparator(Split(s)[i])
    {
      assert i > 0 ==> Split(s)[i] == ls[i - 1];
    }
  }

  /** A statement whose first line ends as Windows ends lines is taken, and changed. */
  lemma WindowsLineEndsAreLost(a: string, b: string)
    requires a != "" && OneLine(a) && !HasPrefix(a, "#")
    requires forall i :: 0 <= i < |Split(b)| ==> !IsSeparator(Split(b)[i])
    ensures Storable(a + "\r" + "\n" + b) && !RoundTrips(a + "\r" + "\n" + b)
  {
    var s := a + "\r" + "\n" + b;
    var line := a + "\r";
    SplitOneLine(line, b);
    assert line[0] == a[0] && EndsInCr(line) && !HasPrefix(line, "#");
    CrLineStorable(s, line, Split(b));
    RoundTripsIff(s);
  }
}
