/** The CSV writers of the gap statistics: each prints a header line and
    then its counts to an output stream. */
module GapOutput {
  import opened Results
  import opened Text
  import opened Tally
  import opened Stream

  const FrequencyHeader := "Gap_length,count"
  const FrameshiftHeader := "frameshifting-gaps,total-gaps"
  const PhaseHeader := "phase0,phase1,phase2"
  const PositionHeader := "position,count"

  /** One row "first,second" per pair, in input order. */
  function PairRows(counts: seq<(nat, nat)>): seq<string> {
    if counts == [] then []
    else PairRows(counts[..|counts| - 1]) + [Row(counts[|counts| - 1].0, counts[|counts| - 1].1)]
  }

  /** What frequency writes: the header, then "0,0" when there are no
      lengths, else one row per (length, count) pair. */
  function FrequencyLines(counts: seq<(nat, nat)>): seq<string> {
    [FrequencyHeader] + (if counts == [] then [Row(0, 0)] else PairRows(counts))
  }

  method Frequency(counts: seq<(nat, nat)>, out: OutStream)
    modifies out
    ensures out.lines == old(out.lines) + FrequencyLines(counts)
  {
    if counts == [] {
      out.WriteLine(FrequencyHeader);
      out.WriteLine(Row(0, 0));
    } else {
      out.WriteLine(FrequencyHeader);
      var i := 0;
      while i < |counts|
        invariant 0 <= i <= |counts|
        invariant out.lines == old(out.lines) + [FrequencyHeader] + PairRows(counts[..i])
      {
        assert counts[..i + 1][..i] == counts[..i];
        out.WriteLine(Row(counts[i].0, counts[i].1));
        i := i + 1;
      }
      assert counts[..|counts|] == counts;
    }
  }

  /** Row k of PairRows is the row of the k-th pair. */
  lemma {:induction false} PairRowAt(counts: seq<(nat, nat)>, k: nat)
    requires k < |counts|
    ensures |PairRows(counts)| == |counts|
    ensures PairRows(counts)[k] == Row(counts[k].0, counts[k].1)
  {
    var init := counts[..|counts| - 1];
    if k < |init| {
      PairRowAt(init, k);
    } else if init != [] {
      PairRowAt(init, 0);
    }
  }

  /** Row k of PairRows reads back as the k-th pair. */
  lemma PairRowsReadBack(counts: seq<(nat, nat)>)
    ensures |PairRows(counts)| == |counts|
    ensures forall k :: 0 <= k < |counts| ==>
      ReadRow(PairRows(counts)[k]) == Some([counts[k].0, counts[k].1])
  {
    if counts != [] {
      PairRowAt(counts, 0);
    }
    forall k | 0 <= k < |counts|
      ensures ReadRow(PairRows(counts)[k]) == Some([counts[k].0, counts[k].1])
    {
      PairRowAt(counts, k);
      ReadRowRoundTrip(counts[k].0, counts[k].1);
    }
  }

  /** The header comes first; an empty table is the single row "0,0";
      otherwise line k + 1 reads back as pair k. */
  lemma FrequencyReadsBack(counts: seq<(nat, nat)>)
    ensures FrequencyLines(counts)[0] == FrequencyHeader
    ensures counts == [] ==> FrequencyLines(counts) == [FrequencyHeader, "0,0"]
    ensures counts != [] ==> |FrequencyLines(counts)| == |counts| + 1
    ensures forall k :: 0 <= k < |counts| ==>
      ReadRow(FrequencyLines(counts)[k + 1]) == Some([counts[k].0, counts[k].1])
  {
    assert Row(0, 0) == "0,0";
    PairRowsReadBack(counts);
  }

  lemma FrequencyTest()
    ensures FrequencyLines([(1, 5), (2, 4), (3, 3), (4, 2), (6, 1)])
      == ["Gap_length,count", "1,5", "2,4", "3,3", "4,2", "6,1"]
  {
    var c: seq<(nat, nat)> := [(1, 5), (2, 4), (3, 3), (4, 2), (6, 1)];
    assert c[..1] == [(1, 5)];
    assert c[..2] == [(1, 5), (2, 4)];
    assert c[..3] == [(1, 5), (2, 4), (3, 3)];
    assert c[..4] == [(1, 5), (2, 4), (3, 3), (4, 2)];
    assert Row(1, 5) == "1,5";
    assert Row(2, 4) == "2,4";
    assert Row(3, 3) == "3,3";
    assert Row(4, 2) == "4,2";
    assert Row(6, 1) == "6,1";
    assert c[..2][..1] == c[..1];
    assert c[..3][..2] == c[..2];
    assert c[..4][..3] == c[..3];
    assert c[..4] == c[..|c| - 1];
    assert PairRows(c[..1]) == ["1,5"];
    assert PairRows(c[..2]) == ["1,5", "2,4"];
    assert PairRows(c[..3]) == ["1,5", "2,4", "3,3"];
    assert PairRows(c[..4]) == ["1,5", "2,4", "3,3", "4,2"];
    assert PairRows(c) == ["1,5", "2,4", "3,3", "4,2", "6,1"];
  }

  lemma FrequencyEmptyTest()
    ensures FrequencyLines([]) == ["Gap_length,count", "0,0"]
  {
    FrequencyReadsBack([]);
  }

  /** What frameshift writes: the header and the row "frameshifting,total". */
  function FrameshiftLines(gaps: (nat, nat)): seq<string> {
    HeaderAndPair(FrameshiftHeader, gaps)
  }

  method Frameshift(gaps: (nat, nat), out: OutStream)
    modifies out
    ensures out.lines == old(out.lines) + FrameshiftLines(gaps)
  {
    out.WriteLine(FrameshiftHeader);
    out.WriteLine(Row(gaps.0, gaps.1));
  }

  lemma FrameshiftTest()
    ensures FrameshiftLines((10, 30)) == ["frameshifting-gaps,total-gaps", "10,30"]
  {
    assert NatToString(10) == "10";
    assert NatToString(30) == "30";
    assert Row(10, 30) == "10,30";
  }

  /** Every per-file phase vector has its three entries. */
  predicate HasPhases(phases: seq<seq<nat>>) {
    forall i :: 0 <= i < |phases| ==> |phases[i]| >= 3
  }

  /** One row "phase0,phase1,phase2" per file. */
  function PhaseRows(phases: seq<seq<nat>>): seq<string>
    requires HasPhases(phases)
  {
    if phases == [] then []
    else
      var f := phases[|phases| - 1];
      PhaseRows(phases[..|phases| - 1]) + [Row3(f[0], f[1], f[2])]
  }

  function PhaseLines(phases: seq<seq<nat>>): seq<string>
    requires HasPhases(phases)
  {
    [PhaseHeader] + PhaseRows(phases)
  }

  /** phase: file[0], file[1] and file[2] are read unchecked, so each
      vector must hold three entries. */
  method Phase(phases: seq<seq<nat>>, out: OutStream)
    requires HasPhases(phases)
    modifies out
    ensures out.lines == old(out.lines) + PhaseLines(phases)
  {
    out.WriteLine(PhaseHeader);
    var i := 0;
    while i < |phases|
      invariant 0 <= i <= |phases|
      invariant out.lines == old(out.lines) + [PhaseHeader] + PhaseRows(phases[..i])
    {
      assert phases[..i + 1][..i] == phases[..i];
      var f := phases[i];
      out.WriteLine(Row3(f[0], f[1], f[2]));
      i := i + 1;
    }
    assert phases[..|phases|] == phases;
  }

  /** After the header, line i + 1 reads back as the first three counts of
      file i. */
  lemma {:induction false} PhaseReadsBack(phases: seq<seq<nat>>)
    requires HasPhases(phases)
    ensures |PhaseLines(phases)| == |phases| + 1 && PhaseLines(phases)[0] == PhaseHeader
    ensures forall i :: 0 <= i < |phases| ==>
      ReadRow(PhaseLines(phases)[i + 1]) == Some(phases[i][..3])
  {
    if phases != [] {
      var init := phases[..|phases| - 1];
      PhaseReadsBack(init);
      forall i | 0 <= i < |phases|
        ensures ReadRow(PhaseLines(phases)[i + 1]) == Some(phases[i][..3])
      {
        if i < |init| {
          assert PhaseLines(phases)[i + 1] == PhaseLines(init)[i + 1];
        } else {
          var f := phases[i];
          ReadRow3RoundTrip(f[0], f[1], f[2]);
          assert f[..3] == [f[0], f[1], f[2]];
        }
      }
    }
  }

  lemma PhaseTestSingle()
    ensures PhaseLines([[30, 20, 10]]) == ["phase0,phase1,phase2", "30,20,10"]
  {
    assert NatToString(30) == "30";
    assert NatToString(20) == "20";
    assert NatToString(10) == "10";
    assert Row3(30, 20, 10) == "30,20,10";
    var ps: seq<seq<nat>> := [[30, 20, 10]];
    assert ps[..0] == [];
  }

  lemma PhaseTestMultiple()
    ensures PhaseLines([[30, 20, 10], [50, 20, 30]])
      == ["phase0,phase1,phase2", "30,20,10", "50,20,30"]
  {
    assert NatToString(30) == "30";
    assert NatToString(20) == "20";
    assert NatToString(10) == "10";
    assert NatToString(50) == "50";
    assert Row3(30, 20, 10) == "30,20,10";
    assert Row3(50, 20, 30) == "50,20,30";
    var ps: seq<seq<nat>> := [[30, 20, 10], [50, 20, 30]];
    assert ps[..1] == [[30, 20, 10]];
    assert ps[..1][..0] == [];
    assert PhaseRows(ps[..1]) == ["30,20,10"];
    assert PhaseRows(ps) == ["30,20,10", "50,20,30"];
  }

  /** The rows "i,positions[i]" for 1 <= i < n; index 0 is never written. */
  function PositionRows(positions: seq<nat>, n: nat): seq<string>
    requires n <= |positions|
  {
    if n <= 1 then [] else PositionRows(positions, n - 1) + [Row(n - 1, positions[n - 1])]
  }

  /** What position writes: the header, then "0,0" when no position holds a
      gap, else a row for every position from 1 on, zero rows included. */
  function PositionLines(positions: seq<nat>): seq<string> {
    [PositionHeader] + (if AllZero(positions) then [Row(0, 0)] else PositionRows(positions, |positions|))
  }

  method Position(positions: seq<nat>, out: OutStream)
    modifies out
    ensures out.lines == old(out.lines) + PositionLines(positions)
  {
    out.WriteLine(PositionHeader);
    if forall k | 0 <= k < |positions| :: positions[k] == 0 {
      out.WriteLine(Row(0, 0));
    } else {
      var i := 1;
      while i < |positions|
        invariant 1 <= i <= |positions|
        invariant out.lines == old(out.lines) + [PositionHeader] + PositionRows(positions, i)
      {
        out.WriteLine(Row(i, positions[i]));
        i := i + 1;
      }
    }
  }

  /** PositionRows has a row for every index from 1 below n, in order. */
  lemma {:induction false} PositionRowsReadBack(positions: seq<nat>, n: nat)
    requires 1 <= n <= |positions|
    ensures |PositionRows(positions, n)| == n - 1
    ensures forall i :: 1 <= i < n ==>
      ReadRow(PositionRows(positions, n)[i - 1]) == Some([i, positions[i]])
  {
    if n > 1 {
      PositionRowsReadBack(positions, n - 1);
      ReadRowRoundTrip(n - 1, positions[n - 1]);
    }
  }

  /** All zero: the header and "0,0". Otherwise one line per position,
      line i reading back as (i, positions[i]) for every i from 1, so index 0
      never appears. */
  lemma PositionReadsBack(positions: seq<nat>)
    ensures PositionLines(positions)[0] == PositionHeader
    ensures AllZero(positions) ==> PositionLines(positions) == [PositionHeader, "0,0"]
    ensures !AllZero(positions) ==> |PositionLines(positions)| == |positions|
    ensures !AllZero(positions) ==> forall i :: 1 <= i < |positions| ==>
      ReadRow(PositionLines(positions)[i]) == Some([i, positions[i]])
  {
    assert Row(0, 0) == "0,0";
    if !AllZero(positions) {
      PositionRowsReadBack(positions, |positions|);
    }
  }

  lemma PositionAllZeroTest()
    ensures PositionLines(seq(101, i => 0)) == ["position,count", "0,0"]
  {
    PositionReadsBack(seq(101, i => 0));
  }

  /** The 101-entry vector of the position doctest, in its five source
      lines. */
  const PositionDoctest: seq<nat> :=
    [0, 2, 1, 1, 2, 3, 1, 2, 3, 1, 4, 3, 4, 2, 2, 2, 2, 2, 4, 1, 2]
    + [3, 2, 3, 0, 2, 2, 2, 3, 1, 1, 1, 3, 2, 2, 0, 2, 2, 2, 2, 3, 3]
    + [2, 2, 3, 5, 3, 3, 3, 5, 2, 1, 1, 3, 1, 1, 2, 1, 1, 3, 3, 1, 4]
    + [4, 2, 4, 1, 5, 2, 2, 2, 3, 1, 1, 5, 3, 4, 0, 0, 1, 1, 2, 6, 2]
    + [3, 3, 2, 1, 5, 1, 5, 4, 0, 0, 2, 2, 0, 4, 2, 0, 0]

  /** The doctest's header, first rows and last row. */
  lemma PositionTest()
    ensures |PositionLines(PositionDoctest)| == 101
    ensures PositionLines(PositionDoctest)[0] == "position,count"
    ensures PositionLines(PositionDoctest)[1] == "1,2"
    ensures PositionLines(PositionDoctest)[2] == "2,1"
    ensures PositionLines(PositionDoctest)[10] == "10,4"
    ensures PositionLines(PositionDoctest)[100] == "100,0"
  {
    var p := PositionDoctest;
    assert |p| == 101 && p[1] == 2 && p[2] == 1 && p[10] == 4 && p[100] == 0;
    assert !AllZero(p);
    PositionRowAt(p, 101, 1);
    PositionRowAt(p, 101, 2);
    PositionRowAt(p, 101, 10);
    PositionRowAt(p, 101, 100);
    assert NatToString(10) == "10";
    assert NatToString(100) == "100";
    assert Row(1, 2) == "1,2";
    assert Row(2, 1) == "2,1";
    assert Row(10, 4) == "10,4";
    assert Row(100, 0) == "100,0";
  }

  /** Row i - 1 of PositionRows is the row of position i. */
  lemma {:induction false} PositionRowAt(positions: seq<nat>, n: nat, i: nat)
    requires 1 <= i < n <= |positions|
    ensures |PositionRows(positions, n)| == n - 1
    ensures PositionRows(positions, n)[i - 1] == Row(i, positions[i])
  {
    PositionRowsReadBack(positions, n);
    if i < n - 1 {
      PositionRowAt(positions, n - 1, i);
    }
  }
}

/** The CSV writers of the sequence statistics. */
module SeqOutput {
  import opened Results
  import opened Text
  import opened Stream

  const AmbiguousHeader := "ambiguous_nucleotides"
  const FrameshiftHeader := "frameshifts,total"
  const SubstHeader := "phase0,phase1,phase2"

  /** What ambiguous writes: the header and the bare count. */
  function AmbiguousLines(count: nat): seq<string> {
    [AmbiguousHeader, NatToString(count)]
  }

  method Ambiguous(count: nat, out: OutStream)
    modifies out
    ensures out.lines == old(out.lines) + AmbiguousLines(count)
  {
    out.WriteLine(AmbiguousHeader);
    out.WriteLine(NatToString(count));
  }

  lemma AmbiguousReadsBack(count: nat)
    ensures |AmbiguousLines(count)| == 2 && AmbiguousLines(count)[0] == AmbiguousHeader
    ensures ReadRow(AmbiguousLines(count)[1]) == Some([count])
  {
    ReadSingle(count);
  }

  lemma AmbiguousTest()
    ensures AmbiguousLines(10) == ["ambiguous_nucleotides", "10"]
  {
    assert NatToString(10) == "10";
  }

  /** What frameshift writes: the header and the row "frameshifts,total". */
  function FrameshiftLines(count: (nat, nat)): seq<string> {
    HeaderAndPair(FrameshiftHeader, count)
  }

  method Frameshift(count: (nat, nat), out: OutStream)
    modifies out
    ensures out.lines == old(out.lines) + FrameshiftLines(count)
  {
    out.WriteLine(FrameshiftHeader);
    out.WriteLine(Row(count.0, count.1));
  }

  lemma FrameshiftTest()
    ensures FrameshiftLines((9, 25)) == ["frameshifts,total", "9,25"]
  {
    assert NatToString(25) == "25";
    assert Row(9, 25) == "9,25";
  }

  /** stop_codons: each prepared line is echoed, in order. */
  method StopCodons(rows: seq<string>, out: OutStream)
    modifies out
    ensures out.lines == old(out.lines) + rows
  {
    var i := 0;
    while i < |rows|
      invariant 0 <= i <= |rows|
      invariant out.lines == old(out.lines) + rows[..i]
    {
      assert rows[..i + 1] == rows[..i] + [rows[i]];
      out.WriteLine(rows[i]);
      i := i + 1;
    }
    assert rows[..|rows|] == rows;
  }

  /** What subst writes: the header and the three per-phase counts. */
  function SubstLines(count: seq<nat>): seq<string>
    requires |count| >= 3
  {
    [SubstHeader, Row3(count[0], count[1], count[2])]
  }

  /** subst: count[0], count[1] and count[2] are read unchecked. */
  method Subst(count: seq<nat>, out: OutStream)
    requires |count| >= 3
    modifies out
    ensures out.lines == old(out.lines) + SubstLines(count)
  {
    out.WriteLine(SubstHeader);
    out.WriteLine(Row3(count[0], count[1], count[2]));
  }

  lemma SubstReadsBack(count: seq<nat>)
    requires |count| >= 3
    ensures |SubstLines(count)| == 2 && SubstLines(count)[0] == SubstHeader
    ensures ReadRow(SubstLines(count)[1]) == Some(count[..3])
  {
    ReadRow3RoundTrip(count[0], count[1], count[2]);
    assert count[..3] == [count[0], count[1], count[2]];
  }
}
