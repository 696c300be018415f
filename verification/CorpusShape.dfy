/** The shape of a corpus file, as lines, and reading against it (internal/testfile/testfile.go:84-206). */
module CorpusShape {
  import opened Tokens
  import opened Corpus
  import opened CorpusRoundTrip

  /** A case as it stands in a file: lines that say nothing, the statement, its verdict behind a
      part separator, and remarks. */
  datatype Entry = Entry(gap: seq<string>, sql: seq<string>, verdict: string, remarks: seq<string>)

  predicate Says(line: string) { line != "==" && line != "--" }

  predicate AllSay(ls: seq<string>) { forall i :: 0 <= i < |ls| ==> Says(ls[i]) }

  predicate IsGap(ls: seq<string>) { forall i :: 0 <= i < |ls| ==> ls[i] == "" || ls[i] == "==" }

  predicate WellEntry(en: Entry) {
    IsGap(en.gap) && AllSay(en.sql) && Says(en.verdict) && AllSay(en.remarks) && (en.sql != [] ==> en.sql[0] != "")
  }

  function EntryLines(en: Entry): seq<string> { en.gap + (en.sql + (["--", en.verdict] + en.remarks)) }

  /** The entries, a case separator behind each; the last may do without one if nothing follows. */
  function BodyLines(es: seq<Entry>, closed: bool, end: seq<string>): seq<string> {
    if es == [] then end
    else EntryLines(es[0]) + (if |es| == 1 && !closed then [] else ["=="] + BodyLines(es[1..], closed, end))
  }

  predicate WellBody(es: seq<Entry>, end: seq<string>) {
    IsGap(end) && forall i :: 0 <= i < |es| ==> WellEntry(es[i])
  }

  /** The verdict of a case: accepted, or rejected with a message, or no verdict at all. */
  ghost predicate Judges(verdict: string, c: Case) {
    || (verdict == "ok" && !c.reject && c.error == "")
    || (verdict == "error: " + c.error && c.reject)
  }

  ghost predicate IsCase(en: Entry, index: nat, c: Case) {
    c.sql == Join(en.sql) && c.index == index && Judges(en.verdict, c)
  }

  /** Header lines: comments, whose text may stand one space off, and empty lines. */
  predicate IsHeading(ls: seq<string>) { forall i :: 0 <= i < |ls| ==> ls[i] == "" || ls[i][0] == '#' }

  function HeadingText(ls: seq<string>): seq<string>
    requires IsHeading(ls)
  {
    if ls == [] then []
    else (if ls[0] == "" then [] else [CommentText(ls[0])]) + HeadingText(ls[1..])
  }

  function CommentText(line: string): string
    requires line != ""
  {
    if |line| > 1 && line[1] == ' ' then line[2..] else line[1..]
  }

  predicate BeginsBody(ls: seq<string>) { ls != [] ==> ls[0] != "" && ls[0][0] != '#' }

  // ----- a file of this shape is read -----

  lemma CommentRead(line: string)
    requires line != "" && line[0] == '#'
    ensures HasPrefix(line, "#") && TrimPrefix(TrimPrefix(line, "#"), " ") == CommentText(line)
  {
    assert line[..1] == "#";
    var rest := line[1..];
    if |rest| > 0 && rest[0] == ' ' {
      assert rest[..1] == " " && rest[1..] == line[2..];
    }
  }

  function WithHeading(r: Reader, hs: seq<string>): Reader {
    r.(file := File(r.file.header + hs, r.file.cases))
  }

  lemma HeadingStep(r: Reader, line: string)
    requires !r.headerDone && (line == "" || line[0] == '#')
    ensures Step(r, line) == Some(WithHeading(r, HeadingText([line])))
  {
    assert [line][1..] == [] && HeadingText([line][1..]) == [];
    if line == "" {
      assert HeadingText([line]) == [];
      assert r.file.header + [] == r.file.header && !HasPrefix(line, "#");
    } else {
      CommentRead(line);
      assert HeadingText([line]) == [CommentText(line)];
    }
  }

  lemma {:induction false} OneHeading(line: string)
    requires line == "" || line[0] == '#'
    ensures IsHeading([line]) && HeadingText([line]) == if line == "" then [] else [CommentText(line)]
  {
    assert [line][1..] == [];
  }

  lemma {:induction false} HeadingFirst(ls: seq<string>)
    requires ls != [] && IsHeading(ls)
    ensures IsHeading([ls[0]]) && IsHeading(ls[1..])
    ensures HeadingText(ls) == HeadingText([ls[0]]) + HeadingText(ls[1..])
  {
    OneHeading(ls[0]);
  }

  lemma {:induction false} HeadingTaken(r: Reader, ls: seq<string>, rest: seq<string>)
    requires !r.headerDone && IsHeading(ls)
    ensures ReadLines(r, ls + rest) == ReadLines(WithHeading(r, HeadingText(ls)), rest)
    decreases |ls|
  {
    if ls == [] {
      assert ls + rest == rest && r.file.header + [] == r.file.header;
    } else {
      assert ls + rest == [ls[0]] + (ls[1..] + rest);
      HeadingFirst(ls);
      ReadStep(r, ls[0], ls[1..] + rest);
      HeadingStep(r, ls[0]);
      HeadingTaken(WithHeading(r, HeadingText([ls[0]])), ls[1..], rest);
      assert r.file.header + HeadingText([ls[0]]) + HeadingText(ls[1..]) == r.file.header + HeadingText(ls);
    }
  }

  lemma {:induction false} GapsRead(r: Reader, gap: seq<string>, rest: seq<string>)
    requires r.headerDone && AtRest(r) && IsGap(gap)
    ensures ReadLines(r, gap + rest) == ReadLines(r, rest)
    decreases |gap|
  {
    if gap == [] {
      assert gap + rest == rest;
    } else {
      assert gap + rest == [gap[0]] + (gap[1..] + rest);
      ReadStep(r, gap[0], gap[1..] + rest);
      GapsRead(r, gap[1..], rest);
    }
  }

  lemma {:induction false} RemarksRead(r: Reader, ls: seq<string>, rest: seq<string>)
    requires r.headerDone && r.sawContent && r.inExpectation && AllSay(ls)
    ensures ReadLines(r, ls + rest) == ReadLines(r.(expectation := r.expectation + ls), rest)
    decreases |ls|
  {
    if ls == [] {
      assert ls + rest == rest && r.expectation + ls == r.expectation;
    } else {
      assert ls + rest == [ls[0]] + (ls[1..] + rest);
      ReadStep(r, ls[0], ls[1..] + rest);
      RemarksRead(r.(expectation := r.expectation + [ls[0]]), ls[1..], rest);
      assert r.expectation + [ls[0]] + ls[1..] == r.expectation + ls;
    }
  }

  /** The reader once it has taken an entry in. */
  function Taken(r: Reader, en: Entry): Reader {
    Reader(r.file, en.sql, [en.verdict] + en.remarks, true, true, true)
  }

  lemma EntryRead(r: Reader, en: Entry, rest: seq<string>)
    requires AtRest(r) && WellEntry(en) && (r.headerDone || BeginsBody(EntryLines(en)))
    ensures ReadLines(r, EntryLines(en) + rest) == ReadLines(Taken(r, en), rest)
  {
    var begun := r.(headerDone := true);
    var tail := ["--", en.verdict] + en.remarks;
    DoneAtFirst(r, EntryLines(en) + rest);
    assert EntryLines(en) + rest == en.gap + (en.sql + (tail + rest));
    GapsRead(begun, en.gap, en.sql + (tail + rest));
    SqlTaken(begun, en.sql, tail + rest);
    var saw := begun.(sql := en.sql, sawContent := en.sql != []);
    assert tail + rest == ["--"] + (([en.verdict] + en.remarks) + rest);
    ReadStep(saw, "--", ([en.verdict] + en.remarks) + rest);
    RemarksRead(saw.(inExpectation := true, sawContent := true), [en.verdict] + en.remarks, rest);
    assert [] + ([en.verdict] + en.remarks) == [en.verdict] + en.remarks;
  }

  /** The first line of the body ends the header. */
  lemma DoneAtFirst(r: Reader, ls: seq<string>)
    requires ls != [] && (r.headerDone || BeginsBody(ls))
    ensures ReadLines(r, ls) == ReadLines(r.(headerDone := true), ls)
  {
    assert HasPrefix(ls[0], "#") ==> ls[0][0] == ls[0][..1][0];
  }

  lemma SqlTaken(r: Reader, ls: seq<string>, rest: seq<string>)
    requires r.headerDone && AtRest(r) && AllSay(ls) && (ls != [] ==> ls[0] != "")
    ensures ReadLines(r, ls + rest) == ReadLines(r.(sql := ls, sawContent := ls != []), rest)
  {
    if ls == [] {
      assert ls + rest == rest;
    } else {
      assert ls + rest == [ls[0]] + (ls[1..] + rest);
      ReadStep(r, ls[0], ls[1..] + rest);
      assert [] + [ls[0]] == [ls[0]];
      SqlRead(r.(sql := [ls[0]], sawContent := true), ls[1..], rest);
      assert [ls[0]] + ls[1..] == ls;
    }
  }

  /** The reader behind a case. */
  function Rested(r: Reader, c: Case): Reader {
    Reader(File(r.file.header, r.file.cases + [c]), [], [], false, false, true)
  }

  lemma TakenFlushes(r: Reader, en: Entry)
    ensures Flushed(Taken(r, en)).Some? <==> exists c :: IsCase(en, |r.file.cases|, c)
    ensures forall c :: IsCase(en, |r.file.cases|, c) ==> Flushed(Taken(r, en)) == Some(Rested(r, c))
  {
    VerdictJudges(Join(en.sql), en.verdict, |r.file.cases|);
    var o := CaseOf(Join(en.sql), en.verdict, |r.file.cases|);
    if o.Some? {
      assert IsCase(en, |r.file.cases|, o.value);
    }
  }

  lemma VerdictJudges(sql: string, verdict: string, index: nat)
    ensures forall c ::
      CaseOf(sql, verdict, index) == Some(c) <==> c.sql == sql && c.index == index && Judges(verdict, c)
  {
    var o := CaseOf(sql, verdict, index);
    forall c
      ensures o == Some(c) <==> c.sql == sql && c.index == index && Judges(verdict, c)
    {
      if HasPrefix(verdict, "error: ") {
        assert verdict == verdict[..7] + verdict[7..];
        assert verdict[0] == 'e';
      }
      if verdict == "error: " + c.error {
        assert verdict[..7] == "error: " && verdict[7..] == c.error;
        assert verdict[0] == 'e';
      }
    }
  }

  /** The cases of entries, numbered on. */
  ghost predicate AreCases(es: seq<Entry>, from: nat, cs: seq<Case>) {
    |cs| == |es| && forall i :: 0 <= i < |es| ==> IsCase(es[i], from + i, cs[i])
  }

  /** What follows an entry. */
  function Behind(es: seq<Entry>, closed: bool, end: seq<string>): seq<string> {
    if es == [] && !closed then [] else ["=="] + BodyLines(es, closed, end)
  }

  lemma BodyFirst(en: Entry, es: seq<Entry>, closed: bool, end: seq<string>)
    ensures BodyLines([en] + es, closed, end) == EntryLines(en) + Behind(es, closed, end)
  {
    assert ([en] + es)[1..] == es;
  }

  lemma {:induction false} BodyRead(r: Reader, es: seq<Entry>, closed: bool, end: seq<string>, cs: seq<Case>)
    requires AtRest(r) && WellBody(es, end) && (r.headerDone || BeginsBody(BodyLines(es, closed, end)))
    requires AreCases(es, |r.file.cases|, cs)
    ensures ReadLines(r, BodyLines(es, closed, end)) == Some(File(r.file.header, r.file.cases + cs))
    decreases |es|
  {
    var ls := BodyLines(es, closed, end);
    if es == [] {
      assert r.file.cases + cs == r.file.cases;
      if end != [] {
        DoneAtFirst(r, end);
        GapsRead(r.(headerDone := true), end, []);
        assert end + [] == end;
      }
    } else {
      assert WellEntry(es[0]) && IsCase(es[0], |r.file.cases|, cs[0]);
      EntryFirst(es, closed, end);
      if |es| == 1 && !closed {
        OnlyEntry(r, es, end, cs[0]);
        assert cs == [cs[0]];
      } else {
        FirstEntry(r, es, closed, end, cs[0]);
        BodyRead(Rested(r, cs[0]), es[1..], closed, end, cs[1..]);
        assert r.file.cases + [cs[0]] + cs[1..] == r.file.cases + cs;
      }
    }
  }

  lemma {:induction false} OnlyEntry(r: Reader, es: seq<Entry>, end: seq<string>, c: Case)
    requires |es| == 1 && AtRest(r) && WellEntry(es[0]) && (r.headerDone || BeginsBody(EntryLines(es[0])))
    requires IsCase(es[0], |r.file.cases|, c)
    ensures ReadLines(r, BodyLines(es, false, end)) == Some(File(r.file.header, r.file.cases + [c]))
  {
    LastCase(r, es[0], c);
    BodyFirst(es[0], [], false, end);
    assert [es[0]] + [] == es;
  }

  lemma {:induction false} FirstEntry(r: Reader, es: seq<Entry>, closed: bool, end: seq<string>, c: Case)
    requires es != [] && (|es| > 1 || closed)
    requires AtRest(r) && WellEntry(es[0]) && (r.headerDone || BeginsBody(EntryLines(es[0])))
    requires IsCase(es[0], |r.file.cases|, c)
    ensures ReadLines(r, BodyLines(es, closed, end)) == ReadLines(Rested(r, c), BodyLines(es[1..], closed, end))
  {
    NextCase(r, es[0], c, BodyLines(es[1..], closed, end));
    BodyFirst(es[0], es[1..], closed, end);
    assert [es[0]] + es[1..] == es;
  }

  lemma {:induction false} LastCase(r: Reader, en: Entry, c: Case)
    requires AtRest(r) && WellEntry(en) && (r.headerDone || BeginsBody(EntryLines(en)))
    requires IsCase(en, |r.file.cases|, c)
    ensures ReadLines(r, EntryLines(en) + []) == Some(File(r.file.header, r.file.cases + [c]))
  {
    EntryRead(r, en, []);
    TakenFlushes(r, en);
  }

  lemma {:induction false} NextCase(r: Reader, en: Entry, c: Case, more: seq<string>)
    requires AtRest(r) && WellEntry(en) && (r.headerDone || BeginsBody(EntryLines(en)))
    requires IsCase(en, |r.file.cases|, c)
    ensures ReadLines(r, EntryLines(en) + (["=="] + more)) == ReadLines(Rested(r, c), more)
  {
    EntryRead(r, en, ["=="] + more);
    TakenFlushes(r, en);
    ReadStep(Taken(r, en), "==", more);
  }

  lemma EntryFirst(es: seq<Entry>, closed: bool, end: seq<string>)
    requires es != []
    ensures EntryLines(es[0]) != [] && BodyLines(es, closed, end)[0] == EntryLines(es[0])[0]
  {
  }

  /** A file of this shape whose verdicts are verdicts is read: its header, and its cases in order. */
  lemma ShapeIsRead(heading: seq<string>, es: seq<Entry>, closed: bool, end: seq<string>, cs: seq<Case>)
    requires IsHeading(heading) && WellBody(es, end) && BeginsBody(BodyLines(es, closed, end)) && AreCases(es, 0, cs)
    ensures ReadLines(START, heading + BodyLines(es, closed, end)) == Some(File(HeadingText(heading), cs))
  {
    HeadingTaken(START, heading, BodyLines(es, closed, end));
    assert [] + HeadingText(heading) == HeadingText(heading);
    BodyRead(START.(file := File(HeadingText(heading), [])), es, closed, end, cs);
    assert [] + cs == cs;
  }

  // ----- a file that is read has this shape -----

  ghost predicate IsVerdict(verdict: string) { exists c :: Judges(verdict, c) }

  ghost predicate AllVerdicts(es: seq<Entry>) { forall i :: 0 <= i < |es| ==> IsVerdict(es[i].verdict) }

  /** One more line that says nothing, in front. */
  lemma {:induction false} GapBefore(line: string, es: seq<Entry>, closed: bool, end: seq<string>)
    returns (more: seq<Entry>, last: seq<string>)
    requires (line == "" || line == "==") && WellBody(es, end) && AllVerdicts(es)
    ensures WellBody(more, last) && AllVerdicts(more)
    ensures BodyLines(more, closed, last) == [line] + BodyLines(es, closed, end)
  {
    more, last := es, end;
    if es == [] {
      last := [line] + end;
    } else {
      more := [es[0].(gap := [line] + es[0].gap)] + es[1..];
      assert WellEntry(es[0]) && IsVerdict(es[0].verdict);
      LongerGap(line, es[0]);
      LongerFirst(line, es[0], es[1..], closed, end);
      assert [es[0]] + es[1..] == es;
    }
  }

  lemma {:induction false} LongerGap(line: string, en: Entry)
    requires (line == "" || line == "==") && WellEntry(en)
    ensures WellEntry(en.(gap := [line] + en.gap))
    ensures EntryLines(en.(gap := [line] + en.gap)) == [line] + EntryLines(en)
  {
  }

  lemma {:induction false} LongerFirst(line: string, en: Entry, es: seq<Entry>, closed: bool, end: seq<string>)
    requires (line == "" || line == "==") && WellEntry(en)
    ensures BodyLines([en.(gap := [line] + en.gap)] + es, closed, end) == [line] + BodyLines([en] + es, closed, end)
  {
    LongerGap(line, en);
    BodyFirst(en, es, closed, end);
    BodyFirst(en.(gap := [line] + en.gap), es, closed, end);
    LineInFront(line, EntryLines(en), Behind(es, closed, end));
  }

  lemma {:induction false} LineInFront(line: string, first: seq<string>, rest: seq<string>)
    ensures [line] + first + rest == [line] + (first + rest)
  {
  }

  /** From between the cases on. */
  lemma {:induction false} RestShape(r: Reader, ls: seq<string>)
    returns (es: seq<Entry>, closed: bool, end: seq<string>)
    requires AtRest(r) && r.headerDone && ReadLines(r, ls).Some?
    ensures WellBody(es, end) && AllVerdicts(es) && ls == BodyLines(es, closed, end)
    decreases |ls|, 1
  {
    es, closed, end := [], true, [];
    if ls != [] {
      assert ls == [ls[0]] + ls[1..];
      if ls[0] == "" || ls[0] == "==" {
        es, closed, end := RestShape(r, ls[1..]);
        es, end := GapBefore(ls[0], es, closed, end);
      } else {
        var en;
        en, es, closed, end := EntryShape(r, ls);
        BodyFirst(en, es, closed, end);
        es := [en] + es;
      }
    }
  }

  /** From the first line of an entry on. */
  lemma {:induction false} EntryShape(r: Reader, ls: seq<string>)
    returns (en: Entry, es: seq<Entry>, closed: bool, end: seq<string>)
    requires AtRest(r) && r.headerDone && ReadLines(r, ls).Some? && ls != [] && ls[0] != "" && ls[0] != "=="
    ensures WellEntry(en) && IsVerdict(en.verdict) && WellBody(es, end) && AllVerdicts(es)
    ensures ls == EntryLines(en) + Behind(es, closed, end)
    decreases |ls|, 0
  {
    var first, rest := ls[0], ls[1..];
    assert ls == [first] + rest;
    ReadStep(r, first, rest);
    if first == "--" {
      en, es, closed, end := ExpectShape(r.(inExpectation := true, sawContent := true), rest);
      PartFirst(en, Behind(es, closed, end));
    } else {
      assert [] + [first] == [first];
      en, es, closed, end := SqlShape(r.(sawContent := true, sql := [first]), rest);
      LineFirst(en, first, Behind(es, closed, end));
    }
  }

  lemma PartFirst(en: Entry, behind: seq<string>)
    requires en.gap == [] && en.sql == []
    ensures EntryLines(en) + behind == ["--"] + (([en.verdict] + en.remarks)[0..] + behind)
  {
    assert EntryLines(en) == ["--"] + ([en.verdict] + en.remarks);
  }

  lemma LineFirst(en: Entry, line: string, behind: seq<string>)
    requires en.gap == [] && [line] <= en.sql
    ensures EntryLines(en) + behind == [line] + (en.sql[1..] + (["--", en.verdict] + en.remarks) + behind)
  {
    assert en.sql == [line] + en.sql[1..];
    assert EntryLines(en) == [line] + (en.sql[1..] + (["--", en.verdict] + en.remarks));
  }

  lemma {:induction false} SqlLineFirst(sql: seq<string>, before: seq<string>, line: string, tail: seq<string>,
                                        behind: seq<string>)
    requires before + [line] <= sql
    ensures before <= sql
    ensures sql[|before|..] + tail + behind == [line] + (sql[|before + [line]|..] + tail + behind)
  {
    assert sql[|before|] == (before + [line])[|before|];
    assert sql[|before|..] == [line] + sql[|before| + 1..];
  }

  /** Inside a statement. */
  lemma {:induction false} SqlShape(r: Reader, ls: seq<string>)
    returns (en: Entry, es: seq<Entry>, closed: bool, end: seq<string>)
    requires r.headerDone && r.sawContent && !r.inExpectation && r.expectation == []
    requires AllSay(r.sql) && r.sql != [] && r.sql[0] != "" && ReadLines(r, ls).Some?
    ensures WellEntry(en) && en.gap == [] && r.sql <= en.sql && IsVerdict(en.verdict)
    ensures WellBody(es, end) && AllVerdicts(es)
    ensures ls == en.sql[|r.sql|..] + (["--", en.verdict] + en.remarks) + Behind(es, closed, end)
    decreases |ls|, 1
  {
    if ls[0] == "--" {
      en, es, closed, end := ExpectShape(r.(inExpectation := true), ls[1..]);
    } else {
      en, es, closed, end := SqlShape(r.(sql := r.sql + [ls[0]]), ls[1..]);
      SqlLineFirst(en.sql, r.sql, ls[0], ["--", en.verdict] + en.remarks, Behind(es, closed, end));
    }
    assert ls == [ls[0]] + ls[1..];
  }

  /** Behind the part separator. */
  lemma {:induction false} ExpectShape(r: Reader, ls: seq<string>)
    returns (en: Entry, es: seq<Entry>, closed: bool, end: seq<string>)
    requires r.headerDone && r.sawContent && r.inExpectation && AllSay(r.expectation)
    requires AllSay(r.sql) && (r.sql != [] ==> r.sql[0] != "") && ReadLines(r, ls).Some?
    ensures WellEntry(en) && en.gap == [] && en.sql == r.sql && IsVerdict(en.verdict)
    ensures WellBody(es, end) && AllVerdicts(es) && r.expectation <= [en.verdict] + en.remarks
    ensures ls == ([en.verdict] + en.remarks)[|r.expectation|..] + Behind(es, closed, end)
    decreases |ls|, 1
  {
    es, closed, end := [], false, [];
    if ls == [] {
      en := Finished(r);
    } else {
      var first, rest := ls[0], ls[1..];
      assert ls == [first] + rest;
      ReadStep(r, first, rest);
      if first == "==" {
        en := Finished(r);
        es, closed, end := RestShape(Flushed(r).value, rest);
        closed := closed || es == [];
        NoneLeft(r.expectation, Behind(es, closed, end));
      } else {
        en, es, closed, end := ExpectShape(r.(expectation := r.expectation + [first]), rest);
        RemarkFirst([en.verdict] + en.remarks, r.expectation, first, Behind(es, closed, end));
      }
    }
  }

  lemma RemarkFirst(all: seq<string>, some: seq<string>, line: string, behind: seq<string>)
    requires some + [line] <= all
    ensures some <= all && all[|some|..] + behind == [line] + (all[|some + [line]|..] + behind)
  {
    assert all[|some|..] == [line] + all[|some + [line]|..];
  }

  lemma NoneLeft(all: seq<string>, behind: seq<string>)
    ensures all[|all|..] + behind == behind
  {
  }

  /** What has been collected is a whole entry. */
  lemma Finished(r: Reader) returns (en: Entry)
    requires r.sawContent && r.inExpectation && AllSay(r.expectation) && Flushed(r).Some?
    requires AllSay(r.sql) && (r.sql != [] ==> r.sql[0] != "")
    ensures WellEntry(en) && en.gap == [] && en.sql == r.sql && IsVerdict(en.verdict)
    ensures [en.verdict] + en.remarks == r.expectation && AtRest(Flushed(r).value)
  {
    en := Entry([], r.sql, r.expectation[0], r.expectation[1..]);
    VerdictJudges(Join(r.sql), en.verdict, |r.file.cases|);
    assert Judges(en.verdict, CaseOf(Join(r.sql), en.verdict, |r.file.cases|).value);
  }

  /** Every file that is read is of this shape, behind its header. */
  lemma {:induction false} ReadHasShape(r: Reader, ls: seq<string>)
    returns (heading: seq<string>, es: seq<Entry>, closed: bool, end: seq<string>)
    requires AtRest(r) && !r.headerDone && ReadLines(r, ls).Some?
    ensures IsHeading(heading) && WellBody(es, end) && AllVerdicts(es) && BeginsBody(BodyLines(es, closed, end))
    ensures ls == heading + BodyLines(es, closed, end)
    decreases |ls|
  {
    heading, es, closed, end := [], [], true, [];
    if ls != [] {
      if ls[0] == "" || ls[0][0] == '#' {
        if ls[0] != "" {
          CommentRead(ls[0]);
        }
        heading, es, closed, end := ReadHasShape(Step(r, ls[0]).value, ls[1..]);
        heading := [ls[0]] + heading;
        assert ls == [ls[0]] + ls[1..];
      } else {
        DoneAtFirst(r, ls);
        es, closed, end := RestShape(r.(headerDone := true), ls);
        assert [] + ls == ls;
      }
    }
  }

  /** A file of this shape. */
  ghost predicate Shaped(ls: seq<string>, f: File) {
    exists heading, es, closed, end ::
      && IsHeading(heading) && WellBody(es, end) && BeginsBody(BodyLines(es, closed, end))
      && ls == heading + BodyLines(es, closed, end)
      && f.header == HeadingText(heading) && AreCases(es, 0, f.cases)
  }

  /** Lines are read as a file exactly when they have its shape. */
  lemma ReadIff(ls: seq<string>, f: File)
    ensures ReadLines(START, ls) == Some(f) <==> Shaped(ls, f)
  {
    if Shaped(ls, f) {
      var heading, es, closed, end :|
        && IsHeading(heading) && WellBody(es, end) && BeginsBody(BodyLines(es, closed, end))
        && ls == heading + BodyLines(es, closed, end)
        && f.header == HeadingText(heading) && AreCases(es, 0, f.cases);
      ShapeIsRead(heading, es, closed, end, f.cases);
    }
    if ReadLines(START, ls) == Some(f) {
      var heading, es, closed, end := ReadHasShape(START, ls);
      var cs := CasesOf(es, 0);
      ShapeIsRead(heading, es, closed, end, cs);
      assert Shaped(ls, f);
    }
  }

  lemma {:induction false} CasesOf(es: seq<Entry>, from: nat) returns (cs: seq<Case>)
    requires AllVerdicts(es)
    ensures AreCases(es, from, cs)
    decreases |es|
  {
    cs := [];
    if es != [] {
      var c :| Judges(es[0].verdict, c);
      var rest := CasesOf(es[1..], from + 1);
      cs := [c.(sql := Join(es[0].sql), index := from)] + rest;
    }
  }

  // ----- the text itself -----

  /** A file in full: one header line, an accepted statement and a rejected one. */
  lemma WrittenInFull(h: string, a: string, b: string, message: string)
    ensures Unlines(FileLines(File([h], [Case(a, false, "", 0), Case(b, true, message, 1)])))
      == "# " + h + "\n\n" + (a + "\n--\n" + "ok" + "\n==\n") + (b + "\n--\n" + ("error: " + message) + "\n==\n")
  {
    var one, two := Case(a, false, "", 0), Case(b, true, message, 1);
    var head, first, second := "# " + h + "\n\n", Unlines(CaseLines(one)), Unlines(CaseLines(two));
    CaseInFull(one);
    CaseInFull(two);
    FileInFull(h, one, two);
    assert head + (first + second) == head + first + second;
  }

  lemma FileInFull(h: string, one: Case, two: Case)
    ensures Unlines(FileLines(File([h], [one, two])))
      == "# " + h + "\n\n" + (Unlines(CaseLines(one)) + Unlines(CaseLines(two)))
  {
    TwoCases(one, two);
    HeadingInFull(h);
    UnlinesJoin(Heading([h]), AllCaseLines([one, two]));
  }

  lemma TwoCases(one: Case, two: Case)
    ensures Unlines(AllCaseLines([one, two])) == Unlines(CaseLines(one)) + Unlines(CaseLines(two))
  {
    assert [one, two][1..] == [two] && [two][1..] == [];
    assert AllCaseLines([two]) == CaseLines(two) + [] == CaseLines(two);
    UnlinesJoin(CaseLines(one), CaseLines(two));
  }

  lemma HeadingInFull(h: string)
    ensures Unlines(Heading([h])) == "# " + h + "\n\n"
  {
    var line := "# " + h;
    assert HeaderLines([h]) == [line];
    assert Heading([h]) == [line, ""] && [line, ""][1..] == [""];
    OneLineOnly("");
  }

  lemma CaseInFull(c: Case)
    ensures Unlines(CaseLines(c)) == c.sql + "\n--\n" + (if c.reject then "error: " + c.error else "ok") + "\n==\n"
  {
    SplitJoins(c.sql);
    JoinedAsLines(Split(c.sql));
    CaseText(Split(c.sql), c.sql + "\n", "--", Verdict(c), "==");
  }
}
