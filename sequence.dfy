/** The sequence statistics: early stop codons (with optional gap removal,
    trimming to whole codons and three levels of detail), sequences whose
    length is not a multiple of three, and ambiguous nucleotide codes.
    Stop codons work on parsed files (path, names and sequences); the other
    two only need each file's sequences. */
module Sequence {
  import opened Structs
  import opened Text
  import opened Fasta

  /** info_detail: how finely stop codons are reported. */
  datatype Detail = Total | File | Seq

  const GAP: char := '-'

  /** The codons that end translation. */
  const StopCodonList: seq<string> := ["TAA", "TAG", "TGA"]

  predicate IsStop(codon: string) {
    codon in StopCodonList
  }

  // ---------------------------------------------------------------------
  // Preparing a sequence

  /** The sequence with every gap erased, the other characters kept in
      order (erase of remove). */
  function RemoveGaps(s: string): string {
    if s == [] then []
    else
      var last := s[|s| - 1];
      RemoveGaps(s[..|s| - 1]) + (if last == GAP then [] else [last])
  }

  /** No gap is left, and a gap-free sequence is left as it is. */
  lemma {:induction false} RemoveGapsNoGap(s: string)
    ensures GAP !in RemoveGaps(s)
    ensures GAP !in s ==> RemoveGaps(s) == s
    decreases |s|
  {
    if s != [] {
      var last := s[|s| - 1];
      assert s == s[..|s| - 1] + [last];
      RemoveGapsNoGap(s[..|s| - 1]);
    }
  }

  /** Gap removal keeps every other character, as often as it occurs. */
  lemma {:induction false} RemoveGapsKeepsOthers(s: string, c: char)
    requires c != GAP
    ensures multiset(RemoveGaps(s))[c] == multiset(s)[c]
    decreases |s|
  {
    if s != [] {
      var last := s[|s| - 1];
      assert s == s[..|s| - 1] + [last];
      RemoveGapsKeepsOthers(s[..|s| - 1], c);
    }
  }

  lemma {:induction false} RemoveGapsAppend(a: string, b: string)
    ensures RemoveGaps(a + b) == RemoveGaps(a) + RemoveGaps(b)
    decreases |b|
  {
    if b == [] {
      assert a + b == a;
    } else {
      assert (a + b)[..|a + b| - 1] == a + b[..|b| - 1];
      RemoveGapsAppend(a, b[..|b| - 1]);
    }
  }

  /** The sequence cut down to whole codons, always losing something: a
      length that is a multiple of three loses its last codon, any other
      length its one or two trailing characters. For the empty string the
      subtraction length - 3 wraps around and substr keeps the whole (empty)
      string. */
  function TrimToCodons(s: string): (r: string)
    ensures |r| <= |s| && r == s[..|r|]
    ensures |r| % 3 == 0
    ensures s == [] ==> r == []
    ensures s != [] ==> |r| < |s| <= |r| + 3
  {
    if |s| % 3 == 0 then
      if |s| >= 3 then s[..|s| - 3] else s
    else s[..|s| - |s| % 3]
  }

  // ---------------------------------------------------------------------
  // Counting stop codons

  /** The number of stop codons among the non-overlapping codons at offsets
      0, 3, 6, ... (a trailing piece shorter than a codon is never one). */
  function StopsIn(t: string): (n: nat)
    ensures n <= |t| / 3
    decreases |t|
  {
    if |t| < 3 then 0
    else (if IsStop(t[..3]) then 1 else 0) + StopsIn(t[3..])
  }

  /** The stop codons the scan finds in one sequence. */
  function SeqStops(s: string, discardGaps: bool): nat {
    StopsIn(TrimToCodons(if discardGaps then RemoveGaps(s) else s))
  }

  /** Codon counts add up over a split on a codon boundary. */
  lemma {:induction false} StopsAppend(a: string, b: string)
    requires |a| % 3 == 0
    ensures StopsIn(a + b) == StopsIn(a) + StopsIn(b)
    decreases |a|
  {
    if a == [] {
      assert a + b == b;
    } else {
      assert (a + b)[..3] == a[..3];
      assert (a + b)[3..] == a[3..] + b;
      StopsAppend(a[3..], b);
    }
  }

  /** An in-frame sequence ending in a whole codon is trimmed back to what
      precedes that codon. */
  lemma TrimDropsLastCodon(t: string, codon: string)
    requires |t| % 3 == 0 && |codon| == 3
    ensures TrimToCodons(t + codon) == t
  {
    var s := t + codon;
    assert |s| % 3 == 0;
    assert TrimToCodons(s) == s[..|t|];
    assert s[..|t|] == t;
  }

  /** The closing codon of an in-frame sequence is never counted: only
      early stop codons are. */
  lemma LastCodonIgnored(t: string, codon: string)
    requires |t| % 3 == 0 && |codon| == 3
    ensures SeqStops(t + codon, false) == StopsIn(t)
  {
    TrimDropsLastCodon(t, codon);
  }

  /** Every stop codon begins with T. */
  lemma StopStartsWithT(codon: string)
    requires |codon| == 3 && codon[0] != 'T'
    ensures !IsStop(codon)
  {
    assert forall k :: 0 <= k < |StopCodonList| ==> StopCodonList[k][0] == 'T';
  }

  lemma TrimExamples()
    ensures TrimToCodons("AAATAAAAATAG") == "AAATAAAAA"
    ensures TrimToCodons("CTAAGGCCC") == "CTAAGG"
    ensures TrimToCodons("TAACCC") == "TAA"
    ensures TrimToCodons("T-AACCC") == "T-AACC"
  {
  }

  lemma CodonExamples()
    ensures StopsIn("AAATAAAAA") == 1
    ensures StopsIn("CTAAGG") == 0
    ensures StopsIn("TAA") == 1
    ensures StopsIn("T-AACC") == 0
  {
    var t := "AAATAAAAA";
    assert t[..3] == "AAA" && t[3..] == "TAAAAA";
    assert t[3..][..3] == "TAA" && t[3..][3..] == "AAA";
    assert "AAA"[..3] == "AAA" && "AAA"[3..] == [];
    StopStartsWithT("AAA");
    assert "CTAAGG"[..3] == "CTA" && "CTAAGG"[3..] == "AGG";
    assert "AGG"[..3] == "AGG" && "AGG"[3..] == [];
    StopStartsWithT("CTA");
    StopStartsWithT("AGG");
    assert "TAA"[..3] == "TAA" && "TAA"[3..] == [];
    assert "T-AACC"[..3] == "T-A" && "T-AACC"[3..] == "ACC";
    assert "ACC"[..3] == "ACC" && "ACC"[3..] == [];
    StopStartsWithT("ACC");
    assert !IsStop("T-A");
  }

  /** Erasing a single gap joins the text on either side of it. */
  lemma RemoveOneGap(a: string, b: string)
    requires GAP !in a && GAP !in b
    ensures RemoveGaps(a + [GAP] + b) == a + b
  {
    var g: string := [GAP];
    assert RemoveGaps(g) == [] by {
      assert g[..0] == [];
    }
    RemoveGapsNoGap(a);
    RemoveGapsNoGap(b);
    RemoveGapsAppend(a, g);
    assert RemoveGaps(a + g) == a;
    RemoveGapsAppend(a + g, b);
  }

  lemma RemoveGapsExample()
    ensures RemoveGaps("T-AACCC") == "TAACCC"
  {
    assert "T" + [GAP] + "AACCC" == "T-AACCC";
    RemoveOneGap("T", "AACCC");
  }

  /** The trailing stop codon is dropped with the last codon; a stop codon
      off the codon grid is not seen. */
  lemma StopExamples()
    ensures SeqStops("AAATAAAAATAG", false) == 1
    ensures SeqStops("CTAAGGCCC", false) == 0
  {
    TrimExamples();
    CodonExamples();
  }

  /** Without gap removal a gap occupies a codon position and can break a
      stop codon up; with it the codon closes up. */
  lemma GapExamples()
    ensures SeqStops("T-AACCC", true) == 1
    ensures SeqStops("T-AACCC", false) == 0
  {
    RemoveGapsExample();
    TrimExamples();
    CodonExamples();
  }

  /** The stop codons of every sequence of one file, in order. */
  function FileStops(ss: seq<string>, discardGaps: bool): nat {
    if ss == [] then 0
    else FileStops(ss[..|ss| - 1], discardGaps) + SeqStops(ss[|ss| - 1], discardGaps)
  }

  /** The stop codons of every file. */
  function TotalStops(files: seq<Data>, discardGaps: bool): nat {
    if files == [] then 0
    else TotalStops(files[..|files| - 1], discardGaps) + FileStops(files[|files| - 1].seqs, discardGaps)
  }

  /** One line of the per-sequence report: path, record name, count. */
  function StopRow(path: string, name: string, n: nat): string {
    path + "," + name + "," + NatToString(n)
  }

  /** The per-sequence report lines of one file, one per sequence. */
  function SeqRows(path: string, names: seq<string>, ss: seq<string>, discardGaps: bool): (r: seq<string>)
    requires |ss| <= |names|
    ensures |r| == |ss|
  {
    if ss == [] then []
    else
      var i := |ss| - 1;
      SeqRows(path, names, ss[..i], discardGaps) + [StopRow(path, names[i], SeqStops(ss[i], discardGaps))]
  }

  /** Every sequence has a name to report it under. */
  predicate Named(files: seq<Data>) {
    forall f :: 0 <= f < |files| ==> |files[f].seqs| <= |files[f].names|
  }

  /** The per-sequence report lines of every file, file by file. */
  function AllSeqRows(files: seq<Data>, discardGaps: bool): seq<string>
    requires Named(files)
  {
    if files == [] then []
    else
      var d := files[|files| - 1];
      AllSeqRows(files[..|files| - 1], discardGaps) + SeqRows(d.path, d.names, d.seqs, discardGaps)
  }

  /** The per-file report pairs: each file's path with its count. */
  function FileRows(files: seq<Data>, discardGaps: bool): (r: seq<(string, nat)>)
    ensures |r| == |files|
  {
    if files == [] then []
    else
      var d := files[|files| - 1];
      FileRows(files[..|files| - 1], discardGaps) + [(d.path, FileStops(d.seqs, discardGaps))]
  }

  /** One codon of the scan: the count over the rest from pos is that
      codon's contribution plus the count from the next codon on. */
  lemma StopsStep(t: string, pos: nat)
    requires pos + 3 <= |t|
    ensures StopsIn(t[pos..]) == (if IsStop(t[pos..pos + 3]) then 1 else 0) + StopsIn(t[pos + 3..])
  {
    assert t[pos..][..3] == t[pos..pos + 3] && t[pos..][3..] == t[pos + 3..];
  }

  /** The scan of one sequence: gaps erased if asked, the tail trimmed, then
      each codon tested; a stop codon bumps all three counters. */
  method ScanSequence(s: string, discardGaps: bool, counts: array<nat>)
    requires counts.Length == 3
    modifies counts
    ensures counts[0] == old(counts[0]) + SeqStops(s, discardGaps)
    ensures counts[1] == old(counts[1]) + SeqStops(s, discardGaps)
    ensures counts[2] == old(counts[2]) + SeqStops(s, discardGaps)
  {
    var t := s;
    if discardGaps {
      t := RemoveGaps(t);
    }
    t := TrimToCodons(t);
    ghost var c0, c1, c2 := counts[0], counts[1], counts[2];
    ghost var found: nat := 0;
    var pos := 0;
    while pos < |t|
      invariant pos <= |t| && (|t| - pos) % 3 == 0
      invariant found + StopsIn(t[pos..]) == StopsIn(t)
      invariant counts[0] == c0 + found && counts[1] == c1 + found && counts[2] == c2 + found
      decreases |t| - pos
    {
      var codon := t[pos..pos + 3];
      StopsStep(t, pos);
      if codon in StopCodonList {
        counts[0] := counts[0] + 1;
        counts[1] := counts[1] + 1;
        counts[2] := counts[2] + 1;
        found := found + 1;
      }
      pos := pos + 3;
    }
  }

  lemma FileStopsStep(ss: seq<string>, i: nat, discardGaps: bool)
    requires i < |ss|
    ensures FileStops(ss[..i + 1], discardGaps) == FileStops(ss[..i], discardGaps) + SeqStops(ss[i], discardGaps)
  {
    assert ss[..i + 1][..i] == ss[..i];
  }

  lemma SeqRowsStep(rows: seq<string>, path: string, names: seq<string>, ss: seq<string>, i: nat, discardGaps: bool)
    requires i < |ss| <= |names|
    ensures rows + SeqRows(path, names, ss[..i + 1], discardGaps)
      == rows + SeqRows(path, names, ss[..i], discardGaps) + [StopRow(path, names[i], SeqStops(ss[i], discardGaps))]
  {
    assert ss[..i + 1][..i] == ss[..i];
  }

  /** The counters and report lines after the first i sequences of d. */
  ghost predicate SeqsScanned(d: Data, i: nat, discardGaps: bool, detail: Detail, c0: nat, c1: nat,
                              counts: seq<nat>, rows: seq<string>, rows': seq<string>)
    requires i <= |d.seqs| && |counts| == 3
  {
    && counts[0] == c0 + FileStops(d.seqs[..i], discardGaps)
    && counts[1] == c1 + FileStops(d.seqs[..i], discardGaps)
    && (detail == Seq ==> |d.seqs| <= |d.names| && counts[2] == 0
                          && rows' == rows + SeqRows(d.path, d.names, d.seqs[..i], discardGaps))
    && (detail != Seq ==> rows' == rows)
  }

  /** The body of the sequence loop: scan sequence i and, in per-sequence
      mode, report its count under its name and reset the counter. */
  method ScanNextSequence(d: Data, i: nat, discardGaps: bool, detail: Detail, counts: array<nat>,
                          ghost c0: nat, ghost c1: nat, ghost rows: seq<string>, rows': seq<string>)
    returns (rows'': seq<string>)
    requires i < |d.seqs| && counts.Length == 3
    requires SeqsScanned(d, i, discardGaps, detail, c0, c1, counts[..], rows, rows')
    modifies counts
    ensures SeqsScanned(d, i + 1, discardGaps, detail, c0, c1, counts[..], rows, rows'')
  {
    FileStopsStep(d.seqs, i, discardGaps);
    ScanSequence(d.seqs[i], discardGaps, counts);
    rows'' := rows';
    if detail == Seq {
      SeqRowsStep(rows, d.path, d.names, d.seqs, i, discardGaps);
      rows'' := rows' + [StopRow(d.path, d.names[i], counts[2])];
      counts[2] := 0;
    }
  }

  /** The scan of one file's sequences. In per-sequence mode each
      sequence's counter is reported under its name and reset. */
  method ScanFile(d: Data, discardGaps: bool, detail: Detail, counts: array<nat>, rows: seq<string>)
    returns (rows': seq<string>)
    requires counts.Length == 3
    requires detail == Seq ==> |d.seqs| <= |d.names| && counts[2] == 0
    modifies counts
    ensures counts[0] == old(counts[0]) + FileStops(d.seqs, discardGaps)
    ensures counts[1] == old(counts[1]) + FileStops(d.seqs, discardGaps)
    ensures detail == Seq ==> counts[2] == 0 && rows' == rows + SeqRows(d.path, d.names, d.seqs, discardGaps)
    ensures detail != Seq ==> rows' == rows
  {
    rows' := rows;
    ghost var c0, c1 := counts[0], counts[1];
    var i := 0;
    assert d.seqs[..0] == [];
    while i < |d.seqs|
      invariant i <= |d.seqs|
      invariant SeqsScanned(d, i, discardGaps, detail, c0, c1, counts[..], rows, rows')
    {
      rows' := ScanNextSequence(d, i, discardGaps, detail, counts, c0, c1, rows, rows');
      i := i + 1;
    }
    assert d.seqs[..i] == d.seqs;
  }

  lemma TotalStopsStep(files: seq<Data>, f: nat, discardGaps: bool)
    requires f < |files|
    ensures TotalStops(files[..f + 1], discardGaps)
      == TotalStops(files[..f], discardGaps) + FileStops(files[f].seqs, discardGaps)
  {
    assert files[..f + 1][..f] == files[..f];
  }

  lemma FileRowsStep(files: seq<Data>, f: nat, discardGaps: bool)
    requires f < |files|
    ensures FileRows(files[..f + 1], discardGaps)
      == FileRows(files[..f], discardGaps) + [(files[f].path, FileStops(files[f].seqs, discardGaps))]
  {
    assert files[..f + 1][..f] == files[..f];
  }

  lemma AllSeqRowsStep(files: seq<Data>, f: nat, discardGaps: bool)
    requires f < |files|
    requires Named(files[..f]) && |files[f].seqs| <= |files[f].names|
    ensures Named(files[..f + 1])
    ensures AllSeqRows(files[..f + 1], discardGaps)
      == AllSeqRows(files[..f], discardGaps) + SeqRows(files[f].path, files[f].names, files[f].seqs, discardGaps)
  {
    assert files[..f + 1][..f] == files[..f];
  }

  /** The counters and reports after the first f files. */
  ghost predicate Scanned(files: seq<Data>, f: nat, discardGaps: bool, detail: Detail,
                          c0: nat, c1: nat, c2: nat, fileCounts: seq<(string, nat)>, seqCounts: seq<string>)
    requires f <= |files|
  {
    && c0 == TotalStops(files[..f], discardGaps)
    && (detail == File ==> c1 == 0 && fileCounts == FileRows(files[..f], discardGaps))
    && (detail != File ==> fileCounts == [])
    && (detail == Seq ==> Named(files[..f]) && c2 == 0 && seqCounts == AllSeqRows(files[..f], discardGaps))
    && (detail != Seq ==> seqCounts == [])
  }

  /** The body of the file loop: scan file f and, in per-file mode, report
      its count and reset the file counter. */
  method ScanNextFile(files: seq<Data>, f: nat, discardGaps: bool, detail: Detail, counts: array<nat>,
                      fileCounts: seq<(string, nat)>, seqCounts: seq<string>)
    returns (fileCounts': seq<(string, nat)>, seqCounts': seq<string>)
    requires f < |files| && counts.Length == 3
    requires detail == Seq ==> Named(files)
    requires Scanned(files, f, discardGaps, detail, counts[0], counts[1], counts[2], fileCounts, seqCounts)
    modifies counts
    ensures Scanned(files, f + 1, discardGaps, detail, counts[0], counts[1], counts[2], fileCounts', seqCounts')
  {
    var d := files[f];
    TotalStopsStep(files, f, discardGaps);
    if detail == Seq {
      AllSeqRowsStep(files, f, discardGaps);
    }
    seqCounts' := ScanFile(d, discardGaps, detail, counts, seqCounts);
    fileCounts' := fileCounts;
    if detail == File {
      FileRowsStep(files, f, discardGaps);
      fileCounts' := fileCounts + [(d.path, counts[1])];
      counts[1] := 0;
    }
  }

  /** The stop-codon branch of sequence: the total count, and, depending
      on the detail asked for, the per-file pairs or the per-sequence lines
      it prints (the printing itself is not modelled). */
  method StopCodons(files: seq<Data>, discardGaps: bool, detail: Detail)
    returns (total: nat, fileCounts: seq<(string, nat)>, seqCounts: seq<string>)
    requires detail == Seq ==> Named(files)
    ensures total == TotalStops(files, discardGaps)
    ensures detail == File ==> fileCounts == FileRows(files, discardGaps)
    ensures detail != File ==> fileCounts == []
    ensures detail == Seq ==> seqCounts == AllSeqRows(files, discardGaps)
    ensures detail != Seq ==> seqCounts == []
  {
    var counts := new nat[3](_ => 0);
    fileCounts := [];
    seqCounts := [];
    var f := 0;
    while f < |files|
      invariant f <= |files|
      invariant Scanned(files, f, discardGaps, detail, counts[0], counts[1], counts[2], fileCounts, seqCounts)
    {
      fileCounts, seqCounts := ScanNextFile(files, f, discardGaps, detail, counts, fileCounts, seqCounts);
      f := f + 1;
    }
    assert files[..f] == files;
    total := counts[0];
  }

  /** All the sequences of some files, file after file. */
  function AllSeqs(files: seq<Data>): seq<string> {
    if files == [] then [] else AllSeqs(files[..|files| - 1]) + files[|files| - 1].seqs
  }

  lemma {:induction false} FileStopsAppend(a: seq<string>, b: seq<string>, discardGaps: bool)
    ensures FileStops(a + b, discardGaps) == FileStops(a, discardGaps) + FileStops(b, discardGaps)
    decreases |b|
  {
    if b == [] {
      assert a + b == a;
    } else {
      assert (a + b)[..|a + b| - 1] == a + b[..|b| - 1];
      FileStopsAppend(a, b[..|b| - 1], discardGaps);
    }
  }

  /** The total counter is the sum of the per-sequence counts over every
      sequence of every file. */
  lemma {:induction false} TotalIsSumOfSequences(files: seq<Data>, discardGaps: bool)
    ensures TotalStops(files, discardGaps) == FileStops(AllSeqs(files), discardGaps)
  {
    if files != [] {
      var init := files[..|files| - 1];
      TotalIsSumOfSequences(init, discardGaps);
      FileStopsAppend(AllSeqs(init), files[|files| - 1].seqs, discardGaps);
    }
  }

  function SumCounts(rows: seq<(string, nat)>): nat {
    if rows == [] then 0 else SumCounts(rows[..|rows| - 1]) + rows[|rows| - 1].1
  }

  /** The per-file counts add up to the total: the file counter is reset
      after, and only after, each file. */
  lemma {:induction false} FileRowsSumToTotal(files: seq<Data>, discardGaps: bool)
    ensures SumCounts(FileRows(files, discardGaps)) == TotalStops(files, discardGaps)
  {
    if files != [] {
      var rows := FileRows(files, discardGaps);
      assert rows[..|rows| - 1] == FileRows(files[..|files| - 1], discardGaps);
      FileRowsSumToTotal(files[..|files| - 1], discardGaps);
    }
  }

  /** The per-sequence lines number one per sequence of every file. */
  lemma {:induction false} AllSeqRowsCount(files: seq<Data>, discardGaps: bool)
    requires Named(files)
    ensures |AllSeqRows(files, discardGaps)| == |AllSeqs(files)|
  {
    if files != [] {
      AllSeqRowsCount(files[..|files| - 1], discardGaps);
    }
  }

  // ---------------------------------------------------------------------
  // Sequences out of frame

  /** The sequences of one file whose length is not a multiple of three. */
  function OffFrame(ss: seq<string>): (n: nat)
    ensures n <= |ss|
    ensures n == 0 <==> forall i :: 0 <= i < |ss| ==> |ss[i]| % 3 == 0
  {
    if ss == [] then 0
    else OffFrame(ss[..|ss| - 1]) + (if |ss[|ss| - 1]| % 3 != 0 then 1 else 0)
  }

  function FilesOffFrame(files: seq<seq<string>>): nat {
    if files == [] then 0 else FilesOffFrame(files[..|files| - 1]) + OffFrame(files[|files| - 1])
  }

  /** The frameshift branch of sequence: the number of sequences, over all
      files, whose length is not a multiple of three. */
  method LengthFrameshifts(files: seq<seq<string>>) returns (total: nat)
    ensures total == FilesOffFrame(files)
  {
    total := 0;
    var f := 0;
    while f < |files|
      invariant f <= |files|
      invariant total == FilesOffFrame(files[..f])
    {
      assert files[..f + 1][..f] == files[..f];
      var ss := files[f];
      var i := 0;
      while i < |ss|
        invariant i <= |ss|
        invariant total == FilesOffFrame(files[..f]) + OffFrame(ss[..i])
      {
        assert ss[..i + 1][..i] == ss[..i];
        if |ss[i]| % 3 != 0 {
          total := total + 1;
        }
        i := i + 1;
      }
      assert ss[..i] == ss;
      f := f + 1;
    }
    assert files[..f] == files;
  }

  function SeqCount(files: seq<seq<string>>): nat {
    if files == [] then 0 else SeqCount(files[..|files| - 1]) + |files[|files| - 1]|
  }

  /** No more sequences are out of frame than there are sequences, and none
      is exactly when every length is a multiple of three. */
  lemma {:induction false} FilesOffFrameBounds(files: seq<seq<string>>)
    ensures FilesOffFrame(files) <= SeqCount(files)
    ensures FilesOffFrame(files) == 0 <==>
      forall f, i :: 0 <= f < |files| && 0 <= i < |files[f]| ==> |files[f][i]| % 3 == 0
  {
    if files != [] {
      var init := files[..|files| - 1];
      FilesOffFrameBounds(init);
      assert forall f :: 0 <= f < |init| ==> init[f] == files[f];
    }
  }

  // ---------------------------------------------------------------------
  // Ambiguous nucleotides

  /** The IUPAC codes that stand for more than one nucleotide, in both
      cases: the characters of "ryswkmbdhvnRYSWKMBDHVN". */
  const AmbiguousCodes: set<char> :=
    {'r', 'y', 's', 'w', 'k', 'm', 'b', 'd', 'h', 'v', 'n',
     'R', 'Y', 'S', 'W', 'K', 'M', 'B', 'D', 'H', 'V', 'N'}

  predicate IsAmbiguous(c: char) {
    c in AmbiguousCodes
  }

  /** The ambiguous characters of one sequence (count_if over any_of). */
  function AmbiguousIn(s: string): (n: nat)
    ensures n <= |s|
    ensures n == 0 <==> forall i :: 0 <= i < |s| ==> !IsAmbiguous(s[i])
  {
    if s == [] then 0
    else AmbiguousIn(s[..|s| - 1]) + (if IsAmbiguous(s[|s| - 1]) then 1 else 0)
  }

  function FilesAmbiguous(files: seq<seq<string>>): nat {
    if files == [] then 0 else FilesAmbiguous(files[..|files| - 1]) + FileAmbiguous(files[|files| - 1])
  }

  function FileAmbiguous(ss: seq<string>): nat {
    if ss == [] then 0 else FileAmbiguous(ss[..|ss| - 1]) + AmbiguousIn(ss[|ss| - 1])
  }

  /** ambiguous: the ambiguous characters of every sequence of every file. */
  method Ambiguous(files: seq<seq<string>>) returns (n: nat)
    ensures n == FilesAmbiguous(files)
  {
    n := 0;
    var f := 0;
    while f < |files|
      invariant f <= |files|
      invariant n == FilesAmbiguous(files[..f])
    {
      assert files[..f + 1][..f] == files[..f];
      var ss := files[f];
      var i := 0;
      while i < |ss|
        invariant i <= |ss|
        invariant n == FilesAmbiguous(files[..f]) + FileAmbiguous(ss[..i])
      {
        assert ss[..i + 1][..i] == ss[..i];
        n := n + AmbiguousIn(ss[i]);
        i := i + 1;
      }
      assert ss[..i] == ss;
      f := f + 1;
    }
    assert files[..f] == files;
  }

  lemma {:induction false} AmbiguousAppend(a: string, b: string)
    ensures AmbiguousIn(a + b) == AmbiguousIn(a) + AmbiguousIn(b)
    decreases |b|
  {
    if b == [] {
      assert a + b == a;
    } else {
      assert (a + b)[..|a + b| - 1] == a + b[..|b| - 1];
      AmbiguousAppend(a, b[..|b| - 1]);
    }
  }

  predicate IsPlain(c: char) {
    c == 'A' || c == 'C' || c == 'G' || c == 'T' || c == 'a' || c == 'c' || c == 'g' || c == 't' || c == GAP
  }

  lemma PlainNotAmbiguous(c: char)
    requires IsPlain(c)
    ensures !IsAmbiguous(c)
  {
  }

  /** The four plain nucleotides, in either case, and the gap never count. */
  lemma PlainBasesNeverCount(s: string)
    requires forall i :: 0 <= i < |s| ==> IsPlain(s[i])
    ensures AmbiguousIn(s) == 0
  {
    forall i | 0 <= i < |s|
      ensures !IsAmbiguous(s[i])
    {
      PlainNotAmbiguous(s[i]);
    }
  }

  /** A lower-case letter and its upper-case form count alike. */
  lemma AmbiguousEitherCase(c: char)
    requires 'a' <= c <= 'z'
    ensures IsAmbiguous(c) <==> IsAmbiguous((c as int - 32) as char)
  {
  }

  /** A sequence made only of ambiguous codes counts every character. */
  lemma {:induction false} AllAmbiguousCount(s: string)
    requires forall i :: 0 <= i < |s| ==> IsAmbiguous(s[i])
    ensures AmbiguousIn(s) == |s|
    decreases |s|
  {
    if s != [] {
      AllAmbiguousCount(s[..|s| - 1]);
    }
  }

  lemma AmbiguousPlainExamples()
    ensures AmbiguousIn("AAAAAAAAAA") == 0 && AmbiguousIn("CCCCCCCCC") == 0
  {
    PlainBasesNeverCount("AAAAAAAAAA");
    PlainBasesNeverCount("CCCCCCCCC");
  }

  lemma AmbiguousExampleN()
    ensures AmbiguousIn("AAANNAAAAA") == 2
  {
    var a, n, a5 := "AAA", "NN", "AAAAA";
    assert a + n + a5 == "AAANNAAAAA";
    PlainBasesNeverCount(a);
    PlainBasesNeverCount(a5);
    AllAmbiguousCount(n);
    AmbiguousAppend(a, n);
    AmbiguousAppend(a + n, a5);
  }

  lemma AmbiguousExampleWY()
    ensures AmbiguousIn("CCWCCCYCC") == 2
  {
    var cc, w, ccc, y := "CC", "W", "CCC", "Y";
    assert cc + w + ccc + y + cc == "CCWCCCYCC";
    PlainBasesNeverCount(cc);
    PlainBasesNeverCount(ccc);
    AllAmbiguousCount(w);
    AllAmbiguousCount(y);
    AmbiguousAppend(cc, w);
    AmbiguousAppend(cc + w, ccc);
    AmbiguousAppend(cc + w + ccc, y);
    AmbiguousAppend(cc + w + ccc + y, cc);
  }

  lemma AmbiguousExampleLower1()
    ensures AmbiguousIn("nannwwyccgtwrk") == 9
  {
    var n, a, amb5, ccgt, wrk := "n", "a", "nnwwy", "ccgt", "wrk";
    assert n + a + amb5 + ccgt + wrk == "nannwwyccgtwrk";
    AllAmbiguousCount(n);
    PlainBasesNeverCount(a);
    AllAmbiguousCount(amb5);
    PlainBasesNeverCount(ccgt);
    AllAmbiguousCount(wrk);
    AmbiguousAppend(n, a);
    AmbiguousAppend(n + a, amb5);
    AmbiguousAppend(n + a + amb5, ccgt);
    AmbiguousAppend(n + a + amb5 + ccgt, wrk);
  }

  lemma AmbiguousExampleLower2()
    ensures AmbiguousIn("baaandnnhwk") == 8
  {
    var b, aaa, amb7 := "b", "aaa", "ndnnhwk";
    assert b + aaa + amb7 == "baaandnnhwk";
    AllAmbiguousCount(b);
    PlainBasesNeverCount(aaa);
    AllAmbiguousCount(amb7);
    AmbiguousAppend(b, aaa);
    AmbiguousAppend(b + aaa, amb7);
  }

  lemma FileAmbiguousPair(a: string, b: string)
    ensures FileAmbiguous([a, b]) == AmbiguousIn(a) + AmbiguousIn(b)
  {
    var ss := [a, b];
    assert ss[..1] == [a] && ss[1] == b;
    assert [a][..0] == [] && [a][0] == a;
    assert FileAmbiguous([a]) == FileAmbiguous([]) + AmbiguousIn(a);
  }

  lemma FilesAmbiguousPair(f1: seq<string>, f2: seq<string>)
    ensures FilesAmbiguous([f1, f2]) == FileAmbiguous(f1) + FileAmbiguous(f2)
  {
    var files := [f1, f2];
    assert files[..1] == [f1] && files[1] == f2;
    assert [f1][..0] == [] && [f1][0] == f1;
    assert FilesAmbiguous([f1]) == FilesAmbiguous([]) + FileAmbiguous(f1);
  }

  // ---------------------------------------------------------------------
  // The documented cases of ambiguous, read through the parser

  lemma AmbiguousTestNone()
    ensures FilesAmbiguous([Parse("test.fasta", [">seq1", "AAAAAAAAAA", ">seq2", "CCCCCCCCC"]).seqs]) == 0
  {
    assert PlainContent("AAAAAAAAAA") && PlainContent("CCCCCCCCC");
    assert ">" + "seq1" == ">seq1" && ">" + "seq2" == ">seq2";
    assert [">" + "seq1", "AAAAAAAAAA", ">" + "seq2", "CCCCCCCCC"] == [">seq1", "AAAAAAAAAA", ">seq2", "CCCCCCCCC"];
    ReadPlainRecords("test.fasta", "seq1", "AAAAAAAAAA", "seq2", "CCCCCCCCC");
    AmbiguousPlainExamples();
    FileAmbiguousPair("AAAAAAAAAA", "CCCCCCCCC");
    assert [["AAAAAAAAAA", "CCCCCCCCC"]][..0] == [];
  }

  lemma AmbiguousTestUpper()
    ensures FilesAmbiguous([Parse("test.fasta", [">seq1", "AAANNAAAAA", ">seq2", "CCWCCCYCC"]).seqs]) == 4
  {
    assert PlainContent("AAANNAAAAA") && PlainContent("CCWCCCYCC");
    assert ">" + "seq1" == ">seq1" && ">" + "seq2" == ">seq2";
    assert [">" + "seq1", "AAANNAAAAA", ">" + "seq2", "CCWCCCYCC"] == [">seq1", "AAANNAAAAA", ">seq2", "CCWCCCYCC"];
    ReadPlainRecords("test.fasta", "seq1", "AAANNAAAAA", "seq2", "CCWCCCYCC");
    AmbiguousExampleN();
    AmbiguousExampleWY();
    FileAmbiguousPair("AAANNAAAAA", "CCWCCCYCC");
    assert [["AAANNAAAAA", "CCWCCCYCC"]][..0] == [];
  }

  lemma ParseTestLower()
    ensures Parse("test1.fasta", [">n", "nannwwyccgtwrk", ""]).seqs == ["nannwwyccgtwrk"]
    ensures Parse("test2.fasta", [">1", "baaandnnhwk", ">2cccccacacagt"]).seqs == ["baaandnnhwk", ""]
  {
    assert PlainContent("nannwwyccgtwrk") && PlainContent("baaandnnhwk");
    assert ">" + "n" == ">n" && ">" + "1" == ">1" && ">" + "2cccccacacagt" == ">2cccccacacagt";
    var lines1 := [">n", "nannwwyccgtwrk"];
    assert lines1 + [""] + [] == [">n", "nannwwyccgtwrk", ""] && lines1 + [] == lines1;
    SkippedLineIgnored("test1.fasta", lines1, "", []);
    ReadOneRecord("test1.fasta", "n", "nannwwyccgtwrk");
    ReadTrailingHeader("test2.fasta", "1", "baaandnnhwk", "2cccccacacagt");
  }

  /** The second file's last line is a header: ">2cccccacacagt" names a
      record and none of its letters are counted. */
  lemma AmbiguousTestLower()
    ensures FilesAmbiguous([Parse("test1.fasta", [">n", "nannwwyccgtwrk", ""]).seqs,
                            Parse("test2.fasta", [">1", "baaandnnhwk", ">2cccccacacagt"]).seqs]) == 17
  {
    ParseTestLower();
    LowerCaseSequencesCount();
  }

  /** The sequences of the two lower-case test files count 9 and 8. */
  lemma LowerCaseSequencesCount()
    ensures FilesAmbiguous([["nannwwyccgtwrk"], ["baaandnnhwk", ""]]) == 17
  {
    AmbiguousExampleLower1();
    AmbiguousExampleLower2();
    assert FileAmbiguous(["nannwwyccgtwrk"]) == 9 by {
      assert ["nannwwyccgtwrk"][..0] == [];
    }
    assert AmbiguousIn("") == 0;
    FileAmbiguousPair("baaandnnhwk", "");
    FilesAmbiguousPair(["nannwwyccgtwrk"], ["baaandnnhwk", ""]);
  }
}
