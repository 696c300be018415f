/** Corpus files: cases written as lines and read back (internal/testfile/testfile.go:18-206). */
module Corpus {
  import opened Tokens

  datatype Case = Case(sql: string, reject: bool, error: string, index: nat)

  datatype File = File(header: seq<string>, cases: seq<Case>)

  const CASE_SEPARATOR := "=="
  const PART_SEPARATOR := "--"

  // ----- lines -----

  /** strings.Split(s, "\n"). */
  function Split(s: string): (ls: seq<string>)
    ensures ls != []
  {
    if s == "" then [""]
    else if s[0] == '\n' then [""] + Split(s[1..])
    else
      var rest := Split(s[1..]);
      [[s[0]] + rest[0]] + rest[1..]
  }

  /** strings.Join(ls, "\n"). */
  function Join(ls: seq<string>): string {
    if ls == [] then "" else if |ls| == 1 then ls[0] else ls[0] + "\n" + Join(ls[1..])
  }

  /** Every line with its newline. */
  function Unlines(ls: seq<string>): string {
    if ls == [] then "" else ls[0] + "\n" + Unlines(ls[1..])
  }

  predicate OneLine(s: string) { forall i :: 0 <= i < |s| ==> s[i] != '\n' }

  predicate EndsInCr(s: string) { s != "" && s[|s| - 1] == '\r' }

  function DropCr(s: string): string { if EndsInCr(s) then s[..|s| - 1] else s }

  function DropCrs(ls: seq<string>): (r: seq<string>)
    ensures |r| == |ls| && forall i :: 0 <= i < |ls| ==> r[i] == DropCr(ls[i])
  {
    seq(|ls|, i requires 0 <= i < |ls| => DropCr(ls[i]))
  }

  /** The scanner's lines: a last line without newline counts unless it is empty. */
  function Scanned(text: string): seq<string> {
    var ls := Split(text);
    DropCrs(if ls[|ls| - 1] == "" then ls[..|ls| - 1] else ls)
  }

  lemma {:induction false} SplitJoins(s: string)
    ensures Join(Split(s)) == s && forall i :: 0 <= i < |Split(s)| ==> OneLine(Split(s)[i])
  {
    if s != "" {
      var rest := Split(s[1..]);
      SplitJoins(s[1..]);
      if s[0] == '\n' {
        LineBefore(rest);
      } else {
        LongerLine(s[0], rest);
      }
      assert s == [s[0]] + s[1..];
    }
  }

  lemma LineBefore(ls: seq<string>)
    requires ls != []
    ensures Join([""] + ls) == "\n" + Join(ls)
  {
    assert ([""] + ls)[1..] == ls;
  }

  /** One character more in the first line. */
  lemma LongerLine(c: char, ls: seq<string>)
    requires ls != []
    ensures Join([[c] + ls[0]] + ls[1..]) == [c] + Join(ls)
    ensures c != '\n' && OneLine(ls[0]) ==> OneLine([c] + ls[0])
  {
    var longer := [[c] + ls[0]] + ls[1..];
    assert longer[1..] == ls[1..];
    assert |ls| > 1 ==> Join(longer) == [c] + (ls[0] + "\n" + Join(ls[1..]));
  }

  lemma {:induction false} SplitOneLine(l: string, s: string)
    requires OneLine(l)
    ensures Split(l + "\n" + s) == [l] + Split(s)
  {
    if l == "" {
      assert l + "\n" + s == "\n" + s;
      assert ("\n" + s)[1..] == s;
    } else {
      SplitOneLine(l[1..], s);
      var t := l + "\n" + s;
      assert t[0] == l[0] && t[1..] == l[1..] + "\n" + s;
      assert [l[0]] + l[1..] == l;
    }
  }

  lemma {:induction false} SplitUnlines(ls: seq<string>)
    requires forall i :: 0 <= i < |ls| ==> OneLine(ls[i])
    ensures Split(Unlines(ls)) == ls + [""]
  {
    if ls != [] {
      SplitUnlines(ls[1..]);
      SplitOneLine(ls[0], Unlines(ls[1..]));
      assert ls == [ls[0]] + ls[1..];
    }
  }

  lemma ScannedUnlines(ls: seq<string>)
    requires forall i :: 0 <= i < |ls| ==> OneLine(ls[i])
    ensures Scanned(Unlines(ls)) == DropCrs(ls)
  {
    SplitUnlines(ls);
    assert (ls + [""])[..|ls|] == ls;
  }

  lemma {:induction false} UnlinesJoin(a: seq<string>, b: seq<string>)
    ensures Unlines(a + b) == Unlines(a) + Unlines(b)
  {
    if a == [] {
      assert a + b == b;
    } else {
      UnlinesJoin(a[1..], b);
      assert (a + b)[1..] == a[1..] + b;
    }
  }

  lemma {:induction false} JoinedAsLines(ls: seq<string>)
    requires ls != []
    ensures Join(ls) + "\n" == Unlines(ls)
  {
    if |ls| > 1 {
      JoinedAsLines(ls[1..]);
    } else {
      assert Unlines(ls[1..]) == "";
    }
  }

  // ----- writing -----

  function Verdict(c: Case): string { if c.reject then "error: " + c.error else "ok" }

  function CaseLines(c: Case): seq<string> {
    Split(c.sql) + [PART_SEPARATOR, Verdict(c), CASE_SEPARATOR]
  }

  function AllCaseLines(cs: seq<Case>): seq<string> {
    if cs == [] then [] else CaseLines(cs[0]) + AllCaseLines(cs[1..])
  }

  function HeaderLines(hs: seq<string>): (ls: seq<string>)
    ensures |ls| == |hs| && forall i :: 0 <= i < |hs| ==> ls[i] == "# " + hs[i]
  {
    seq(|hs|, i requires 0 <= i < |hs| => "# " + hs[i])
  }

  /** A written file, line by line. */
  function FileLines(f: File): seq<string> {
    Heading(f.header) + AllCaseLines(f.cases)
  }

  /** The header as comments, and a blank line after it. */
  function Heading(hs: seq<string>): seq<string> {
    HeaderLines(hs) + (if hs == [] then [] else [""])
  }

  /** Write. */
  method Write(f: File) returns (text: string)
    ensures text == Unlines(FileLines(f))
  {
    text := WriteHeader(f.header);
    ghost var head := text;
    for i := 0 to |f.cases|
      invariant text + Unlines(AllCaseLines(f.cases[i..])) == head + Unlines(AllCaseLines(f.cases))
    {
      var one := WriteCase(f.cases[i]);
      text := text + one;
      assert f.cases[i..][1..] == f.cases[i + 1..];
      UnlinesJoin(CaseLines(f.cases[i]), AllCaseLines(f.cases[i + 1..]));
    }
    UnlinesJoin(Heading(f.header), AllCaseLines(f.cases));
  }

  method WriteHeader(header: seq<string>) returns (text: string)
    ensures text == Unlines(Heading(header))
  {
    text := "";
    for i := 0 to |header|
      invariant text == Unlines(HeaderLines(header)[..i])
    {
      text := text + "# " + header[i] + "\n";
      LinesGrow(HeaderLines(header), i);
    }
    assert HeaderLines(header)[..|header|] == HeaderLines(header);
    if |header| > 0 {
      text := text + "\n";
      UnlinesJoin(HeaderLines(header), [""]);
      OneLineOnly("");
    } else {
      assert HeaderLines(header) + [] == [];
    }
  }

  method WriteCase(c: Case) returns (text: string)
    ensures text == Unlines(CaseLines(c))
  {
    text := c.sql + "\n" + PART_SEPARATOR + "\n";
    ghost var front := text;
    if c.reject {
      text := text + "error: " + c.error;
    } else {
      text := text + "ok";
    }
    assert text == front + Verdict(c);
    text := text + "\n" + CASE_SEPARATOR + "\n";
    SplitJoins(c.sql);
    JoinedAsLines(Split(c.sql));
    CaseText(Split(c.sql), c.sql + "\n", PART_SEPARATOR, Verdict(c), CASE_SEPARATOR);
  }

  lemma CaseText(ls: seq<string>, body: string, a: string, b: string, c: string)
    requires Unlines(ls) == body
    ensures Unlines(ls + [a, b, c]) == body + a + "\n" + b + "\n" + c + "\n"
  {
    UnlinesJoin(ls, [a, b, c]);
    ThreeLines(a, b, c);
    assert body + (a + "\n" + b + "\n" + c + "\n") == body + a + "\n" + b + "\n" + c + "\n";
  }

  lemma OneLineOnly(l: string)
    ensures Unlines([l]) == l + "\n"
  {
    assert [l][1..] == [];
  }

  lemma ThreeLines(a: string, b: string, c: string)
    ensures Unlines([a, b, c]) == a + "\n" + b + "\n" + c + "\n"
  {
    assert [a, b, c][1..] == [b, c] && [b, c][1..] == [c];
    OneLineOnly(c);
    assert Unlines([b, c]) == b + "\n" + Unlines([c]);
  }

  lemma LinesGrow(ls: seq<string>, i: nat)
    requires i < |ls|
    ensures Unlines(ls[..i + 1]) == Unlines(ls[..i]) + ls[i] + "\n"
  {
    assert ls[..i + 1] == ls[..i] + [ls[i]];
    UnlinesJoin(ls[..i], [ls[i]]);
    OneLineOnly(ls[i]);
  }

  // ----- reading -----

  datatype Reader = Reader(
    file: File,
    sql: seq<string>,
    expectation: seq<string>,
    inExpectation: bool,
    sawContent: bool,
    headerDone: bool)

  const START := Reader(File([], []), [], [], false, false, false)

  predicate HasPrefix(s: string, p: string) { |p| <= |s| && s[..|p|] == p }

  function TrimPrefix(s: string, p: string): string { if HasPrefix(s, p) then s[|p|..] else s }

  /** The case a verdict line gives, if it is one. */
  function CaseOf(sql: string, verdict: string, index: nat): Option<Case> {
    if verdict == "ok" then Some(Case(sql, false, "", index))
    else if HasPrefix(verdict, "error: ") then Some(Case(sql, true, TrimPrefix(verdict, "error: "), index))
    else None
  }

  function Flushed(r: Reader): Option<Reader> {
    if !r.sawContent then Some(r)
    else if !r.inExpectation || r.expectation == [] then None
    else
      match CaseOf(Join(r.sql), r.expectation[0], |r.file.cases|)
      case None => None
      case Some(c) =>
        Some(r.(file := File(r.file.header, r.file.cases + [c]), sql := [], expectation := [], inExpectation := false,
          sawContent := false))
  }

  function Step(r: Reader, line: string): Option<Reader> {
    if !r.headerDone && HasPrefix(line, "#") then
      Some(r.(file := File(r.file.header + [TrimPrefix(TrimPrefix(line, "#"), " ")], r.file.cases)))
    else if !r.headerDone && line == "" then Some(r)
    else BodyStep(r.(headerDone := true), line)
  }

  function BodyStep(r: Reader, line: string): Option<Reader> {
    if line == CASE_SEPARATOR then Flushed(r)
    else if line == PART_SEPARATOR then
      if r.inExpectation then None else Some(r.(inExpectation := true, sawContent := true))
    else if line == "" && !r.sawContent then Some(r)
    else if r.inExpectation then Some(r.(sawContent := true, expectation := r.expectation + [line]))
    else Some(r.(sawContent := true, sql := r.sql + [line]))
  }

  function ReadLines(r: Reader, ls: seq<string>): Option<File>
    decreases |ls|
  {
    if ls == [] then
      match Flushed(r)
      case None => None
      case Some(last) => Some(last.file)
    else
      match Step(r, ls[0])
      case None => None
      case Some(next) => ReadLines(next, ls[1..])
  }

  function ReadText(text: string): Option<File> { ReadLines(START, Scanned(text)) }

  class CorpusReader {
    var header: seq<string>
    var cases: seq<Case>
    var sql: seq<string>
    var expectation: seq<string>
    var inExpectation: bool
    var sawContent: bool
    var headerDone: bool

    constructor ()
      ensures State() == START
    {
      header, cases, sql, expectation := [], [], [], [];
      inExpectation, sawContent, headerDone := false, false, false;
    }

    function State(): Reader
      reads this
    {
      Reader(File(header, cases), sql, expectation, inExpectation, sawContent, headerDone)
    }

    /** flush. */
    method Flush() returns (ok: bool)
      modifies this
      ensures ok == Flushed(old(State())).Some?
      ensures ok ==> State() == Flushed(old(State())).value
    {
      if !sawContent {
        return true;
      }
      if !inExpectation {
        return false;
      }
      var c := Case(Join(sql), false, "", |cases|);
      if |expectation| == 0 {
        return false;
      }
      var verdict := expectation[0];
      if verdict != "ok" {
        if !HasPrefix(verdict, "error: ") {
          return false;
        }
        c := c.(reject := true, error := TrimPrefix(verdict, "error: "));
      }
      cases := cases + [c];
      sql, expectation, inExpectation, sawContent := [], [], false, false;
      return true;
    }

    method TakeLine(line: string) returns (ok: bool)
      modifies this
      ensures ok == Step(old(State()), line).Some?
      ensures ok ==> State() == Step(old(State()), line).value
    {
      if !headerDone {
        if HasPrefix(line, "#") {
          header := header + [TrimPrefix(TrimPrefix(line, "#"), " ")];
          return true;
        }
        if line == "" {
          return true;
        }
        headerDone := true;
      }
      if line == CASE_SEPARATOR {
        ok := Flush();
      } else if line == PART_SEPARATOR {
        if inExpectation {
          return false;
        }
        inExpectation, sawContent := true, true;
        return true;
      } else {
        if line == "" && !sawContent {
          return true;
        }
        sawContent := true;
        if inExpectation {
          expectation := expectation + [line];
        } else {
          sql := sql + [line];
        }
        return true;
      }
    }
  }

  /** Read. */
  method Read(text: string) returns (r: Option<File>)
    ensures r == ReadText(text)
  {
    var reader := new CorpusReader();
    var ls := Scanned(text);
    for i := 0 to |ls|
      invariant ReadLines(reader.State(), ls[i..]) == ReadText(text)
    {
      assert ls[i..][1..] == ls[i + 1..];
      var ok := reader.TakeLine(ls[i]);
      if !ok {
        return None;
      }
    }
    var ok := reader.Flush();
    if !ok {
      return None;
    }
    return Some(File(reader.header, reader.cases));
  }
}
