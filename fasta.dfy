/** read_fasta: the line loop that turns the lines of one input into a
    Data record (names and sequences). The stream is given as the list of
    lines getline would return. */
module Fasta {
  import opened Text
  import opened Structs

  /** What the loop carries between lines: the lists pushed so far, the
      most recent name and the pending sequence content. */
  datatype ParseState = ParseState(names: seq<string>, seqs: seq<string>, name: string, content: string)

  const Initial: ParseState := ParseState([], [], "", "")

  /** Empty lines and ';' comment lines are skipped. */
  predicate IsSkipped(line: string) {
    line == "" || line[0] == ';'
  }

  /** A '>' line names a new record. */
  predicate IsHeader(line: string) {
    line != "" && line[0] == '>'
  }

  /** One pass of the loop body over line. */
  function Step(st: ParseState, line: string): ParseState {
    if IsSkipped(line) then st
    else if IsHeader(line) then
      var seqs := if st.name != "" then st.seqs + [st.content] else st.seqs;
      ParseState(st.names + [line[1..]], seqs, line[1..], "")
    else st.(content := st.content + RemoveSpaces(line))
  }

  /** The state after feeding lines, in order, to the loop. */
  function Feed(st: ParseState, lines: seq<string>): ParseState
    decreases |lines|
  {
    if lines == [] then st else Step(Feed(st, lines[..|lines| - 1]), lines[|lines| - 1])
  }

  /** The record set read from lines: the loop, then the unconditional push
      of the last content. */
  function Parse(path: string, lines: seq<string>): (d: Data)
    ensures d.path == path && |d.seqs| >= 1
    ensures d.seqs[|d.seqs| - 1] == Feed(Initial, lines).content
  {
    var st := Feed(Initial, lines);
    Data(path, st.names, st.seqs + [st.content])
  }

  /** read_fasta over an already-read list of lines. */
  method ReadFasta(path: string, lines: seq<string>) returns (fasta: Data)
    ensures fasta == Parse(path, lines)
  {
    var names: seq<string> := [];
    var seqs: seq<string> := [];
    var name, content := "", "";
    var i := 0;
    while i < |lines|
      invariant 0 <= i <= |lines|
      invariant ParseState(names, seqs, name, content) == Feed(Initial, lines[..i])
    {
      var line := lines[i];
      assert lines[..i + 1][..i] == lines[..i];
      i := i + 1;
      if line == "" {
        continue;  // empty line
      }
      if line[0] == ';' {
        continue;  // comment line
      }
      if line[0] == '>' {
        if name != "" {
          seqs := seqs + [content];
          name := "";
        }
        name := line[1..];
        names := names + [name];
        content := "";
        continue;
      }
      content := content + RemoveSpaces(line);
    }
    assert lines[..i] == lines;
    fasta := Data(path, names, seqs + [content]);
  }

  // ---------------------------------------------------------------------
  // Properties of the parse

  lemma {:induction false} FeedAppend(st: ParseState, a: seq<string>, b: seq<string>)
    ensures Feed(st, a + b) == Feed(Feed(st, a), b)
    decreases |b|
  {
    if b == [] {
      assert a + b == a;
    } else {
      assert (a + b)[..|a + b| - 1] == a + b[..|b| - 1];
      FeedAppend(st, a, b[..|b| - 1]);
    }
  }

  /** Empty and comment lines, wherever they stand, change nothing: not the
      names, not the sequences, not the pending content. */
  lemma SkippedLineIgnored(path: string, a: seq<string>, line: string, b: seq<string>)
    requires IsSkipped(line)
    ensures Parse(path, a + [line] + b) == Parse(path, a + b)
  {
    FeedAppend(Initial, a + [line], b);
    FeedAppend(Initial, a, b);
    assert (a + [line])[..|a|] == a;
  }

  /** The names of the header lines, marker dropped, in input order. */
  function HeaderNames(lines: seq<string>): seq<string> {
    if lines == [] then []
    else
      var last := lines[|lines| - 1];
      HeaderNames(lines[..|lines| - 1]) + (if IsHeader(last) then [last[1..]] else [])
  }

  lemma {:induction false} FeedNames(st: ParseState, lines: seq<string>)
    ensures Feed(st, lines).names == st.names + HeaderNames(lines)
    decreases |lines|
  {
    if lines != [] {
      FeedNames(st, lines[..|lines| - 1]);
    }
  }

  /** Every '>' line contributes its name, in order, and nothing else does. */
  lemma ParseNames(path: string, lines: seq<string>)
    ensures Parse(path, lines).names == HeaderNames(lines)
  {
    FeedNames(Initial, lines);
  }

  predicate Clean(st: ParseState) {
    NoSpace(st.content) && forall k :: 0 <= k < |st.seqs| ==> NoSpace(st.seqs[k])
  }

  lemma {:induction false} FeedClean(st: ParseState, lines: seq<string>)
    requires Clean(st)
    ensures Clean(Feed(st, lines))
    decreases |lines|
  {
    if lines != [] {
      FeedClean(st, lines[..|lines| - 1]);
      var pre := Feed(st, lines[..|lines| - 1]);
      var post := Step(pre, lines[|lines| - 1]);
      assert NoSpace(post.content);
    }
  }

  /** No stored sequence holds a whitespace character. */
  lemma ParseNoWhitespace(path: string, lines: seq<string>)
    ensures forall k :: 0 <= k < |Parse(path, lines).seqs| ==> NoSpace(Parse(path, lines).seqs[k])
  {
    FeedClean(Initial, lines);
  }

  predicate Headerless(lines: seq<string>) {
    forall i :: 0 <= i < |lines| ==> !IsHeader(lines[i])
  }

  /** The sequence text of some lines: every content line with its
      whitespace removed, concatenated in order. */
  function Content(lines: seq<string>): string {
    if lines == [] then ""
    else
      var last := lines[|lines| - 1];
      Content(lines[..|lines| - 1]) + (if IsSkipped(last) || IsHeader(last) then "" else RemoveSpaces(last))
  }

  /** Lines without a header only extend the pending content. */
  lemma {:induction false} FeedBody(st: ParseState, body: seq<string>)
    requires Headerless(body)
    ensures Feed(st, body) == st.(content := st.content + Content(body))
    decreases |body|
  {
    if body == [] {
      assert st.content + "" == st.content;
    } else {
      FeedBody(st, body[..|body| - 1]);
      var c := Content(body[..|body| - 1]);
      var last := body[|body| - 1];
      if IsSkipped(last) {
        assert st.content + c + "" == st.content + c;
      } else {
        assert st.content + c + RemoveSpaces(last) == st.content + (c + RemoveSpaces(last));
      }
    }
  }

  /** Input without any header yields no names and exactly one sequence
      holding all of its content. */
  lemma ParseHeaderless(path: string, lines: seq<string>)
    requires Headerless(lines)
    ensures Parse(path, lines) == Data(path, [], [Content(lines)])
  {
    FeedBody(Initial, lines);
    assert "" + Content(lines) == Content(lines);
  }

  /** A record as it is laid out in the file: a header line and the lines
      below it up to the next header. */
  datatype Record = Record(name: string, body: seq<string>)

  function Render(recs: seq<Record>): seq<string> {
    if recs == [] then []
    else
      var r := recs[|recs| - 1];
      Render(recs[..|recs| - 1]) + ([">" + r.name] + r.body)
  }

  function RecordNames(recs: seq<Record>): seq<string> {
    if recs == [] then [] else RecordNames(recs[..|recs| - 1]) + [recs[|recs| - 1].name]
  }

  function RecordSeqs(recs: seq<Record>): seq<string> {
    if recs == [] then [] else RecordSeqs(recs[..|recs| - 1]) + [Content(recs[|recs| - 1].body)]
  }

  predicate WellFormed(recs: seq<Record>) {
    forall k :: 0 <= k < |recs| ==> recs[k].name != "" && Headerless(recs[k].body)
  }

  /** A header line followed by header-free lines: the name is appended,
      the previous content pushed if the previous name is non-empty, and the
      new content is the body's text. */
  lemma FeedRecord(st: ParseState, r: Record)
    requires Headerless(r.body)
    ensures Feed(st, [">" + r.name] + r.body)
      == ParseState(st.names + [r.name], if st.name != "" then st.seqs + [st.content] else st.seqs,
                    r.name, Content(r.body))
  {
    var header := ">" + r.name;
    assert header[1..] == r.name;
    FeedAppend(st, [header], r.body);
    assert [header][..0] == [];
    var afterHeader := Feed(st, [header]);
    assert afterHeader == Step(st, header);
    FeedBody(afterHeader, r.body);
    assert "" + Content(r.body) == Content(r.body);
  }

  lemma {:induction false} FeedRecords(preamble: seq<string>, recs: seq<Record>)
    requires Headerless(preamble) && WellFormed(recs) && |recs| > 0
    ensures var last := recs[|recs| - 1];
      Feed(Initial, preamble + Render(recs))
        == ParseState(RecordNames(recs), RecordSeqs(recs[..|recs| - 1]), last.name, Content(last.body))
    decreases |recs|
  {
    var n := |recs|;
    var last := recs[n - 1];
    var init := recs[..n - 1];
    var before := preamble + Render(init);
    assert preamble + Render(recs) == before + ([">" + last.name] + last.body);
    FeedAppend(Initial, before, [">" + last.name] + last.body);
    FeedRecord(Feed(Initial, before), last);
    if n == 1 {
      assert before == preamble;
      FeedBody(Initial, preamble);
    } else {
      FeedRecords(preamble, init);
      assert init[..n - 2] == recs[..n - 2];
    }
  }

  /** Records laid out one after the other read back as they were written:
      names in order, each sequence the whitespace-free concatenation of the
      record's content lines (blank lines between a header and its content
      do not split it; a header with no content gets an empty sequence).
      Content before the first header is dropped. */
  lemma ParseRecords(path: string, preamble: seq<string>, recs: seq<Record>)
    requires Headerless(preamble) && WellFormed(recs) && |recs| > 0
    ensures Parse(path, preamble + Render(recs)) == Data(path, RecordNames(recs), RecordSeqs(recs))
  {
    FeedRecords(preamble, recs);
  }

  // ---------------------------------------------------------------------
  // The documented cases

  /** A content line without whitespace is its own sequence text. */
  lemma ContentOfOneLine(pre: seq<string>, line: string, post: seq<string>)
    requires forall k :: 0 <= k < |pre| ==> pre[k] == ""
    requires forall k :: 0 <= k < |post| ==> post[k] == ""
    requires line != "" && line[0] != ';' && line[0] != '>' && NoSpace(line)
    ensures Content(pre + [line] + post) == line
  {
    assert Content(pre) == "" by { ContentOfBlanks(pre); }
    assert (pre + [line])[..|pre|] == pre;
    assert Content(pre + [line]) == "" + line;
    ContentAppendBlanks(pre + [line], post);
  }

  lemma {:induction false} ContentOfBlanks(lines: seq<string>)
    requires forall k :: 0 <= k < |lines| ==> lines[k] == ""
    ensures Content(lines) == ""
    decreases |lines|
  {
    if lines != [] {
      ContentOfBlanks(lines[..|lines| - 1]);
    }
  }

  lemma {:induction false} ContentAppendBlanks(lines: seq<string>, post: seq<string>)
    requires forall k :: 0 <= k < |post| ==> post[k] == ""
    ensures Content(lines + post) == Content(lines)
    decreases |post|
  {
    if post == [] {
      assert lines + post == lines;
    } else {
      assert (lines + post)[..|lines + post| - 1] == lines + post[..|post| - 1];
      ContentAppendBlanks(lines, post[..|post| - 1]);
    }
  }

  /** A line the loop treats as sequence text and keeps unchanged. */
  predicate PlainContent(c: string) {
    c != "" && c[0] != ';' && c[0] != '>' && NoSpace(c)
  }

  /** Two records one after the other: their layout, names and sequences. */
  lemma TwoRecords(r1: Record, r2: Record)
    ensures Render([r1, r2]) == [">" + r1.name] + r1.body + [">" + r2.name] + r2.body
    ensures RecordNames([r1, r2]) == [r1.name, r2.name]
    ensures RecordSeqs([r1, r2]) == [Content(r1.body), Content(r2.body)]
  {
    OneRecord(r1);
    assert [r1, r2][..1] == [r1];
  }

  lemma OneRecord(r: Record)
    ensures Render([r]) == [">" + r.name] + r.body
    ensures RecordNames([r]) == [r.name]
    ensures RecordSeqs([r]) == [Content(r.body)]
  {
    assert [r][..0] == [];
    assert Render([r]) == [] + ([">" + r.name] + r.body);
    assert RecordNames([r]) == [] + [r.name];
    assert RecordSeqs([r]) == [] + [Content(r.body)];
  }

  /** Two well-formed records after a header-free preamble read back as
      two names and their two sequences. */
  lemma ParseTwoRecords(path: string, preamble: seq<string>, r1: Record, r2: Record)
    requires Headerless(preamble) && Headerless(r1.body) && Headerless(r2.body)
    requires r1.name != "" && r2.name != ""
    ensures Parse(path, preamble + ([">" + r1.name] + r1.body + [">" + r2.name] + r2.body))
      == Data(path, [r1.name, r2.name], [Content(r1.body), Content(r2.body)])
  {
    TwoRecords(r1, r2);
    assert WellFormed([r1, r2]);
    ParseRecords(path, preamble, [r1, r2]);
  }

  lemma BlankThenLine(c: string)
    requires PlainContent(c)
    ensures Content(["", c]) == c && Headerless(["", c])
  {
    ContentOfOneLine([""], c, []);
    assert [""] + [c] + [] == ["", c];
  }

  lemma SingleLine(c: string)
    requires PlainContent(c)
    ensures Content([c]) == c && Headerless([c])
  {
    ContentOfOneLine([], c, []);
    assert [] + [c] + [] == [c];
  }

  lemma LineThenBlank(c: string)
    requires PlainContent(c)
    ensures Content([c, ""]) == c && Headerless([c, ""])
  {
    ContentOfOneLine([], c, [""]);
    assert [] + [c] + [""] == [c, ""];
  }

  lemma CommentThenTwoRecords(c1: string, c2: string)
    ensures ["; comment line"] + ([">" + "1"] + ["", c1] + [">" + "2"] + [c2, ""])
      == ["; comment line", ">1", "", c1, ">2", c2, ""]
  {
    assert ">" + "1" == ">1";
    assert ">" + "2" == ">2";
  }

  /** A comment line, then two records, the first with a blank line between
      its header and its content. */
  lemma ReadTwoRecords(path: string, c1: string, c2: string)
    requires PlainContent(c1) && PlainContent(c2)
    ensures Parse(path, ["; comment line", ">1", "", c1, ">2", c2, ""]) == Data(path, ["1", "2"], [c1, c2])
  {
    var r1, r2 := Record("1", ["", c1]), Record("2", [c2, ""]);
    CommentThenTwoRecords(c1, c2);
    BlankThenLine(c1);
    LineThenBlank(c2);
    ParseTwoRecords(path, ["; comment line"], r1, r2);
  }

  lemma ReadExampleTwoRecords()
    ensures Parse("test.fasta", ["; comment line", ">1", "", "CTCTGGATAGTC", ">2", "CTATAGTC", ""])
      == Data("test.fasta", ["1", "2"], ["CTCTGGATAGTC", "CTATAGTC"])
  {
    assert PlainContent("CTCTGGATAGTC") && PlainContent("CTATAGTC");
    ReadTwoRecords("test.fasta", "CTCTGGATAGTC", "CTATAGTC");
  }

  /** One well-formed record after a header-free preamble reads back as one
      name and its sequence. */
  lemma ParseOneRecord(path: string, preamble: seq<string>, r: Record)
    requires Headerless(preamble) && Headerless(r.body) && r.name != ""
    ensures Parse(path, preamble + ([">" + r.name] + r.body)) == Data(path, [r.name], [Content(r.body)])
  {
    OneRecord(r);
    assert WellFormed([r]);
    ParseRecords(path, preamble, [r]);
  }

  /** Two content lines and a trailing blank line: the lines are joined. */
  lemma ContentOfTwoLines(c1: string, c2: string)
    requires PlainContent(c1) && PlainContent(c2)
    ensures Content([c1, c2, ""]) == c1 + c2
  {
    var body := [c1, c2, ""];
    ContentOfOneLine([], c1, []);
    assert [] + [c1] + [] == body[..2][..1];
    assert Content(body[..2]) == c1 + c2;
    ContentAppendBlanks(body[..2], [""]);
    assert body[..2] + [""] == body;
  }

  /** One record whose sequence spans two lines: the lines are joined. */
  lemma ReadMultiLine(path: string, c1: string, c2: string)
    requires PlainContent(c1) && PlainContent(c2)
    ensures Parse(path, ["; comment line", ">1", c1, c2, ""]) == Data(path, ["1"], [c1 + c2])
  {
    var r := Record("1", [c1, c2, ""]);
    assert ">" + "1" == ">1";
    assert ["; comment line"] + ([">" + r.name] + r.body) == ["; comment line", ">1", c1, c2, ""];
    assert Content(r.body) == c1 + c2 by { ContentOfTwoLines(c1, c2); }
    assert Headerless(r.body);
    ParseOneRecord(path, ["; comment line"], r);
  }

  lemma ReadExampleMultiLine()
    ensures Parse("test.fasta", ["; comment line", ">1", "NTNTGGATAGTC", "ACGTACGTACGT", ""])
      == Data("test.fasta", ["1"], ["NTNTGGATAGTCACGTACGTACGT"])
  {
    assert PlainContent("NTNTGGATAGTC") && PlainContent("ACGTACGTACGT");
    ReadMultiLine("test.fasta", "NTNTGGATAGTC", "ACGTACGTACGT");
    assert "NTNTGGATAGTC" + "ACGTACGTACGT" == "NTNTGGATAGTCACGTACGTACGT";
  }

  /** Blank lines between the last header and its content do not split the
      record. */
  lemma ReadBlankLines(path: string, c1: string, c2: string)
    requires PlainContent(c1) && PlainContent(c2)
    ensures Parse(path, ["; comment line", ">nombre", c1, ">name2", "", "", c2])
      == Data(path, ["nombre", "name2"], [c1, c2])
  {
    var r1, r2 := Record("nombre", [c1]), Record("name2", ["", "", c2]);
    assert ">" + "nombre" == ">nombre" && ">" + "name2" == ">name2";
    assert ["; comment line"] + ([">" + r1.name] + r1.body + [">" + r2.name] + r2.body)
      == ["; comment line", ">nombre", c1, ">name2", "", "", c2];
    SingleLine(c1);
    assert Content(r2.body) == c2 by {
      ContentOfOneLine(["", ""], c2, []);
      assert ["", ""] + [c2] + [] == r2.body;
    }
    assert Headerless(r1.body) && Headerless(r2.body);
    ParseTwoRecords(path, ["; comment line"], r1, r2);
  }

  lemma ReadExampleBlankLines()
    ensures Parse("test.fasta", ["; comment line", ">nombre", "NTNTGGATAGTC", ">name2", "", "", "AACG"])
      == Data("test.fasta", ["nombre", "name2"], ["NTNTGGATAGTC", "AACG"])
  {
    assert PlainContent("NTNTGGATAGTC") && PlainContent("AACG");
    ReadBlankLines("test.fasta", "NTNTGGATAGTC", "AACG");
  }

  /** A header with an empty name does not let its content be pushed when
      the next header arrives: the names and sequences then disagree in
      number and size() reports invalid_argument. */
  lemma ReadEmptyNameDropsContent(path: string, c1: string, c2: string)
    requires PlainContent(c1) && PlainContent(c2)
    ensures Parse(path, [">", c1, ">x", c2]) == Data(path, ["", "x"], [c2])
    ensures Size(Parse(path, [">", c1, ">x", c2])).Err?
  {
    var lines := [">", c1, ">x", c2];
    assert lines[..1] == [">"] && lines[..1][..0] == [];
    assert Feed(Initial, lines[..1]) == ParseState([""], [], "", "");
    assert lines[..2][..1] == lines[..1];
    assert Feed(Initial, lines[..2]) == ParseState([""], [], "", "" + c1);
    assert lines[..3][..2] == lines[..2];
    assert Feed(Initial, lines[..3]) == ParseState(["", "x"], [], "x", "");
    assert lines[..4][..3] == lines[..3];
    assert lines[..4] == lines;
    assert Feed(Initial, lines) == ParseState(["", "x"], [], "x", "" + c2);
    assert "" + c2 == c2;
  }

  /** A single header and one content line. */
  lemma ReadOneRecord(path: string, name: string, c: string)
    requires name != "" && PlainContent(c)
    ensures Parse(path, [">" + name, c]) == Data(path, [name], [c])
  {
    var r := Record(name, [c]);
    assert [] + ([">" + r.name] + r.body) == [">" + name, c];
    SingleLine(c);
    ParseOneRecord(path, [], r);
  }

  /** Two headers, each followed by one content line. */
  lemma ReadPlainRecords(path: string, n1: string, c1: string, n2: string, c2: string)
    requires n1 != "" && n2 != "" && PlainContent(c1) && PlainContent(c2)
    ensures Parse(path, [">" + n1, c1, ">" + n2, c2]) == Data(path, [n1, n2], [c1, c2])
  {
    var r1, r2 := Record(n1, [c1]), Record(n2, [c2]);
    assert [] + ([">" + r1.name] + r1.body + [">" + r2.name] + r2.body) == [">" + n1, c1, ">" + n2, c2];
    SingleLine(c1);
    SingleLine(c2);
    ParseTwoRecords(path, [], r1, r2);
  }

  /** A header on the last line still gets a sequence, the empty one. */
  lemma ReadTrailingHeader(path: string, n1: string, c1: string, n2: string)
    requires n1 != "" && n2 != "" && PlainContent(c1)
    ensures Parse(path, [">" + n1, c1, ">" + n2]) == Data(path, [n1, n2], [c1, ""])
  {
    var r1, r2 := Record(n1, [c1]), Record(n2, []);
    assert [] + ([">" + r1.name] + r1.body + [">" + r2.name] + r2.body) == [">" + n1, c1, ">" + n2];
    SingleLine(c1);
    ParseTwoRecords(path, [], r1, r2);
  }
}
