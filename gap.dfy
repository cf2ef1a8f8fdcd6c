/** The gap scanners: run-length scans for the gap symbol over every
    sequence of every input file, accumulating a length histogram (count),
    a position histogram (position), the phase of each run start (phase),
    and the frameshift summary of a length histogram (frameshift). Files
    are given already parsed, as the list of sequences of each. */
module Gap {
  import opened Results
  import opened Structs
  import opened Tally

  const GAP: char := '-'

  /** std::string::find(GAP, i): the first gap at or after i, with |s|
      standing for npos (also when i is past the end). */
  function FindGap(s: string, i: nat): (r: nat)
    ensures r <= |s|
    ensures r < |s| ==> i <= r && s[r] == GAP
    ensures forall k :: i <= k < r ==> s[k] != GAP
    decreases |s| - i
  {
    if i >= |s| then |s| else if s[i] == GAP then i else FindGap(s, i + 1)
  }

  // ---------------------------------------------------------------------
  // Maximal gap runs, defined without reference to any scan

  /** p is where a maximal run of gaps begins. */
  predicate IsRunStart(s: string, p: int) {
    0 <= p < |s| && s[p] == GAP && (p == 0 || s[p - 1] != GAP)
  }

  /** The number of consecutive gaps from p on. */
  function RunLength(s: string, p: nat): (n: nat)
    requires p <= |s|
    ensures p + n <= |s|
    ensures forall k :: p <= k < p + n ==> s[k] == GAP
    ensures p + n == |s| || s[p + n] != GAP
    decreases |s| - p
  {
    if p == |s| || s[p] != GAP then 0 else 1 + RunLength(s, p + 1)
  }

  /** The run starts of s below hi, in increasing order. */
  function RunStarts(s: string, hi: nat): (r: seq<nat>)
    requires hi <= |s|
    ensures forall k :: 0 <= k < |r| ==> r[k] < hi
  {
    if hi == 0 then []
    else RunStarts(s, hi - 1) + (if IsRunStart(s, hi - 1) then [hi - 1] else [])
  }

  /** RunStarts lists exactly the run starts below hi, in increasing order. */
  lemma {:induction false} RunStartsExact(s: string, hi: nat)
    requires hi <= |s|
    ensures forall k :: 0 <= k < |RunStarts(s, hi)| ==> IsRunStart(s, RunStarts(s, hi)[k])
    ensures forall p :: 0 <= p < hi && IsRunStart(s, p) ==> p in RunStarts(s, hi)
    ensures forall j, k :: 0 <= j < k < |RunStarts(s, hi)| ==> RunStarts(s, hi)[j] < RunStarts(s, hi)[k]
  {
    if hi > 0 {
      RunStartsExact(s, hi - 1);
    }
  }

  function Runs(s: string): seq<nat> {
    RunStarts(s, |s|)
  }

  /** The lengths of the runs that start at ps, in the same order. */
  function LengthsAt(s: string, ps: seq<nat>): (r: seq<nat>)
    requires forall k :: 0 <= k < |ps| ==> ps[k] <= |s|
    ensures |r| == |ps|
  {
    if ps == [] then [] else LengthsAt(s, ps[..|ps| - 1]) + [RunLength(s, ps[|ps| - 1])]
  }

  lemma {:induction false} LengthsAtIndex(s: string, ps: seq<nat>)
    requires forall k :: 0 <= k < |ps| ==> ps[k] <= |s|
    ensures forall k :: 0 <= k < |ps| ==> LengthsAt(s, ps)[k] == RunLength(s, ps[k])
  {
    if ps != [] {
      LengthsAtIndex(s, ps[..|ps| - 1]);
    }
  }

  /** The lengths of the maximal gap runs of s, left to right. */
  function SeqRunLengths(s: string): seq<nat> {
    LengthsAt(s, Runs(s))
  }

  /** What measure m yields for each sequence of ss, concatenated. */
  function FileGather(ss: seq<string>, m: string -> seq<nat>): seq<nat> {
    if ss == [] then [] else FileGather(ss[..|ss| - 1], m) + m(ss[|ss| - 1])
  }

  /** What measure m yields for every sequence of every file, in
      file-then-sequence order. */
  function Gather(files: seq<seq<string>>, m: string -> seq<nat>): seq<nat> {
    if files == [] then [] else Gather(files[..|files| - 1], m) + FileGather(files[|files| - 1], m)
  }

  /** The lengths of all gap runs of all files. */
  function AllRunLengths(files: seq<seq<string>>): seq<nat> {
    Gather(files, SeqRunLengths)
  }

  // ---------------------------------------------------------------------
  // One step of the scan: from a run start to the next one

  lemma {:induction false} NoRunStartsBetween(s: string, a: nat, b: nat)
    requires a <= b <= |s|
    requires forall p :: a <= p < b ==> !IsRunStart(s, p)
    ensures RunStarts(s, b) == RunStarts(s, a)
    decreases b - a
  {
    if a < b {
      NoRunStartsBetween(s, a, b - 1);
    }
  }

  /** Where the scan starts: the first gap, with no run start before it. */
  lemma FirstRun(s: string, pos: nat)
    requires pos == FindGap(s, 0)
    ensures RunStarts(s, pos) == []
    ensures pos < |s| ==> IsRunStart(s, pos)
  {
    NoRunStartsBetween(s, 0, pos);
  }

  /** A sequence contributes one positive length per gap run, and none at
      all exactly when it holds no gap. */
  lemma RunLengthsOfSequence(s: string)
    ensures |SeqRunLengths(s)| == |Runs(s)|
    ensures forall k :: 0 <= k < |SeqRunLengths(s)| ==> SeqRunLengths(s)[k] > 0
    ensures SeqRunLengths(s) == [] <==> GAP !in s
  {
    RunStartsExact(s, |s|);
    LengthsAtIndex(s, Runs(s));
    var pos := FindGap(s, 0);
    FirstRun(s, pos);
    if GAP in s {
      var i :| 0 <= i < |s| && s[i] == GAP;
      assert pos <= i;
    }
  }

  /** e is the end of the run that starts at p. */
  lemma RunEnd(s: string, p: nat, e: nat)
    requires p <= e <= |s|
    requires forall k :: p <= k < e ==> s[k] == GAP
    requires e == |s| || s[e] != GAP
    ensures e == p + RunLength(s, p)
  {
  }

  /** Having found the run at pos and walked to its end e, searching again
      from e + 1 lands on the next run start (or npos), and pos is the only
      run start passed on the way. */
  lemma {:induction false} ScanStep(s: string, pos: nat, e: nat, next: nat)
    requires IsRunStart(s, pos) && e == pos + RunLength(s, pos) && next == FindGap(s, e + 1)
    ensures pos < next
    ensures RunStarts(s, next) == RunStarts(s, pos) + [pos]
    ensures next < |s| ==> IsRunStart(s, next)
    ensures next == |s| && e < |s| ==> s[|s| - 1] != GAP
  {
    assert RunStarts(s, pos + 1) == RunStarts(s, pos) + [pos];
    forall p | pos + 1 <= p < next
      ensures !IsRunStart(s, p)
    {
      if p < e {
        assert s[p - 1] == GAP;
      }
    }
    NoRunStartsBetween(s, pos + 1, next);
  }

  /** The run lengths seen by the scan grow by the length of the run just
      walked. */
  lemma NextRunLengths(s: string, pos: nat, n: nat, next: nat)
    requires IsRunStart(s, pos) && n == RunLength(s, pos) && next == FindGap(s, pos + n + 1)
    ensures pos < next <= |s|
    ensures LengthsAt(s, RunStarts(s, next)) == LengthsAt(s, RunStarts(s, pos)) + [n]
    ensures next < |s| ==> IsRunStart(s, next)
  {
    ScanStep(s, pos, pos + n, next);
    var ps := RunStarts(s, pos);
    var qs := ps + [pos];
    assert RunStarts(s, next) == qs;
    assert qs[..|qs| - 1] == ps;
    assert LengthsAt(s, qs) == LengthsAt(s, ps) + [n];
  }

  // ---------------------------------------------------------------------
  // count: the gap-length histogram

  method WalkRun(s: string, pos: nat) returns (lcount: nat)
    requires IsRunStart(s, pos)
    ensures lcount == RunLength(s, pos)
  {
    lcount := 0;
    var e := pos;
    while s[e] == GAP
      invariant pos <= e < |s|
      invariant lcount == e - pos
      invariant forall k :: pos <= k < e ==> s[k] == GAP
      decreases |s| - e
    {
      e := e + 1;
      lcount := lcount + 1;
      if e >= |s| {
        break;
      }
    }
    RunEnd(s, pos, e);
  }

  /** The scan of one sequence in count: every maximal run of length L adds
      one to counts[L]. The source writes counts[L] unchecked, so every run
      must be shorter than the histogram. */
  /** Every maximal gap run of s is shorter than n. */
  predicate RunsShorter(s: string, n: nat) {
    forall p :: 0 <= p < |s| && IsRunStart(s, p) ==> RunLength(s, p) < n
  }

  method CountRuns(s: string, counts: seq<nat>) returns (r: seq<nat>)
    requires RunsShorter(s, |counts|)
    ensures Tallied(r, counts, SeqRunLengths(s))
  {
    r := counts;
    var pos := FindGap(s, 0);
    FirstRun(s, pos);
    ghost var seen: seq<nat> := [];
    while pos < |s|
      invariant pos <= |s|
      invariant pos < |s| ==> IsRunStart(s, pos)
      invariant seen == LengthsAt(s, RunStarts(s, pos))
      invariant Tallied(r, counts, seen)
      decreases |s| - pos
    {
      var lcount := WalkRun(s, pos);
      var e := pos + lcount;
      TallyBump(r, counts, seen, lcount);
      r := r[lcount := r[lcount] + 1];
      var next := FindGap(s, e + 1);
      NextRunLengths(s, pos, lcount, next);
      seen := seen + [lcount];
      pos := next;
    }
  }

  /** Histogram size after some files: the longest sequence seen so far
      (the vector is resized to each file's len() when that is larger). */
  function HistSize(files: seq<seq<string>>): nat
    requires forall f :: 0 <= f < |files| ==> |files[f]| > 0
  {
    if files == [] then 0
    else
      var m := MaxLength(files[|files| - 1]);
      var h := HistSize(files[..|files| - 1]);
      if h < m then m else h
  }

  predicate NonEmptyFiles(files: seq<seq<string>>) {
    forall f :: 0 <= f < |files| ==> |files[f]| > 0
  }

  /** What count demands of its input: every run in file f is shorter than
      the histogram as it stands while file f is scanned. */
  ghost predicate RunsFit(files: seq<seq<string>>)
    requires NonEmptyFiles(files)
  {
    forall f, i, p :: 0 <= f < |files| && 0 <= i < |files[f]| && IsRunStart(files[f][i], p)
      ==> RunLength(files[f][i], p) < HistSize(files[..f + 1])
  }

  lemma SeqRunLengthsBelow(s: string, n: nat)
    requires RunsShorter(s, n)
    ensures AllBelow(SeqRunLengths(s), n)
  {
    RunStartsExact(s, |s|);
    LengthsAtIndex(s, Runs(s));
    var xs := SeqRunLengths(s);
    forall k | 0 <= k < |xs|
      ensures xs[k] < n
    {
      assert IsRunStart(s, Runs(s)[k]);
    }
  }

  lemma HistSizeStep(files: seq<seq<string>>, f: nat)
    requires NonEmptyFiles(files) && f < |files|
    ensures HistSize(files[..f + 1]) == if HistSize(files[..f]) < MaxLength(files[f]) then MaxLength(files[f]) else HistSize(files[..f])
  {
    assert files[..f + 1][..f] == files[..f];
  }

  /** What RunsFit says about file f. */
  lemma RunsFitFile(files: seq<seq<string>>, f: nat)
    requires NonEmptyFiles(files) && RunsFit(files) && f < |files|
    ensures forall i :: 0 <= i < |files[f]| ==> RunsShorter(files[f][i], HistSize(files[..f + 1]))
    ensures AllBelow(FileGather(files[f], SeqRunLengths), HistSize(files[..f + 1]))
  {
    var n := HistSize(files[..f + 1]);
    forall s | s in files[f]
      ensures AllBelow(SeqRunLengths(s), n)
    {
      SeqRunLengthsBelow(s, n);
    }
    FileGatherBelowIn(files[f], SeqRunLengths, n);
  }

  lemma FileGatherStep(ss: seq<string>, i: nat, m: string -> seq<nat>)
    requires i < |ss|
    ensures FileGather(ss[..i + 1], m) == FileGather(ss[..i], m) + m(ss[i])
  {
    assert ss[..i + 1][..i] == ss[..i];
  }

  lemma GatherStep(files: seq<seq<string>>, f: nat, m: string -> seq<nat>)
    requires f < |files|
    ensures Gather(files[..f + 1], m) == Gather(files[..f], m) + FileGather(files[f], m)
  {
    assert files[..f + 1][..f] == files[..f];
  }

  /** count over the sequences of one file, after the resize. */
  method CountFile(ss: seq<string>, counts: seq<nat>) returns (r: seq<nat>)
    requires forall i :: 0 <= i < |ss| ==> RunsShorter(ss[i], |counts|)
    ensures Tallied(r, counts, FileGather(ss, SeqRunLengths))
  {
    r := counts;
    assert ss[..0] == [] && Tallied(r, counts, []);
    var i := 0;
    while i < |ss|
      invariant 0 <= i <= |ss|
      invariant Tallied(r, counts, FileGather(ss[..i], SeqRunLengths))
    {
      var next := CountRuns(ss[i], r);
      TalliedTrans(counts, r, next, FileGather(ss[..i], SeqRunLengths), SeqRunLengths(ss[i]));
      FileGatherStep(ss, i, SeqRunLengths);
      r := next;
      i := i + 1;
    }
    assert ss[..i] == ss;
  }

  /** count over all files: entry L of the result is the number of maximal
      gap runs of length L over every sequence of every file, and the
      histogram is as long as the longest sequence. */
  method Count(files: seq<seq<string>>) returns (counts: seq<nat>)
    requires NonEmptyFiles(files)
    requires RunsFit(files)
    ensures |counts| == HistSize(files)
    ensures IsHistogramOf(counts, AllRunLengths(files))
    ensures AllBelow(AllRunLengths(files), |counts|)
  {
    counts := [];
    var f := 0;
    while f < |files|
      invariant 0 <= f <= |files|
      invariant |counts| == HistSize(files[..f])
      invariant IsHistogramOf(counts, AllRunLengths(files[..f]))
      invariant AllBelow(AllRunLengths(files[..f]), |counts|)
    {
      ghost var seen := AllRunLengths(files[..f]);
      // resize the histogram to the longest sequence of this file
      var len := MaxLength(files[f]);
      if |counts| < len {
        HistogramGrow(counts, seen, len - |counts|);
        counts := counts + seq(len - |counts|, _ => 0);
      }
      HistSizeStep(files, f);
      RunsFitFile(files, f);
      var next := CountFile(files[f], counts);
      HistogramAdd(counts, next, seen, FileGather(files[f], SeqRunLengths));
      GatherStep(files, f, SeqRunLengths);
      counts := next;
      f := f + 1;
    }
    assert files[..f] == files;
  }

  /** A sequence of gaps only. */
  predicate AllGaps(s: string) {
    |s| > 0 && forall k :: 0 <= k < |s| ==> s[k] == GAP
  }

  /** count's demand fails exactly for an all-gap sequence that is as long
      as the histogram: its single run has length len(), one past the end. */
  lemma RunsFitExactly(files: seq<seq<string>>)
    requires NonEmptyFiles(files)
    ensures RunsFit(files) <==>
      forall f, i :: 0 <= f < |files| && 0 <= i < |files[f]| ==>
        !(AllGaps(files[f][i]) && |files[f][i]| == HistSize(files[..f + 1]))
  {
    forall f, i | 0 <= f < |files| && 0 <= i < |files[f]|
      ensures RunsShorter(files[f][i], HistSize(files[..f + 1]))
          <==> !(AllGaps(files[f][i]) && |files[f][i]| == HistSize(files[..f + 1]))
    {
      var s := files[f][i];
      var h := HistSize(files[..f + 1]);
      HistSizeStep(files, f);
      assert |s| <= h;
      if AllGaps(s) && |s| == h {
        RunEnd(s, 0, |s|);
        assert IsRunStart(s, 0) && RunLength(s, 0) == h;
      } else {
        forall p | 0 <= p < |s| && IsRunStart(s, p)
          ensures RunLength(s, p) < h
        {
          if p == 0 && RunLength(s, p) == |s| {
            assert AllGaps(s);
          }
        }
      }
    }
  }

  // ---------------------------------------------------------------------
  // frameshift: how many runs have a length that is not a multiple of 3

  /** Sum of the entries at lengths that are not a multiple of 3. */
  function ShiftSum(h: seq<nat>): nat {
    if h == [] then 0
    else ShiftSum(h[..|h| - 1]) + (if (|h| - 1) % 3 != 0 then h[|h| - 1] else 0)
  }

  /** The values of xs that are not multiples of 3. */
  function Shifting(xs: seq<nat>): (r: seq<nat>)
    ensures |r| <= |xs|
  {
    if xs == [] then []
    else Shifting(xs[..|xs| - 1]) + (if xs[|xs| - 1] % 3 != 0 then [xs[|xs| - 1]] else [])
  }

  /** The values of xs that are multiples of 3. */
  function InFrame(xs: seq<nat>): seq<nat> {
    if xs == [] then []
    else InFrame(xs[..|xs| - 1]) + (if xs[|xs| - 1] % 3 == 0 then [xs[|xs| - 1]] else [])
  }

  /** frameshift over a length histogram: total is the sum of all entries,
      shifting the sum of the entries at lengths not divisible by 3. */
  method Frameshift(counts: seq<nat>) returns (shifting: nat, total: nat)
    ensures total == Sum(counts)
    ensures shifting == ShiftSum(counts)
    ensures shifting <= total
  {
    shifting, total := 0, 0;
    for pos := 0 to |counts|
      invariant total == Sum(counts[..pos])
      invariant shifting == ShiftSum(counts[..pos])
      invariant shifting <= total
    {
      assert counts[..pos + 1][..pos] == counts[..pos];
      if counts[pos] > 0 {
        total := total + counts[pos];
        if pos % 3 != 0 {
          shifting := shifting + counts[pos];
        }
      }
    }
    assert counts[..|counts|] == counts;
  }

  lemma {:induction false} OccShifting(xs: seq<nat>, L: nat)
    ensures Occ(Shifting(xs), L) == if L % 3 != 0 then Occ(xs, L) else 0
    decreases |xs|
  {
    if xs != [] {
      var ys := xs[..|xs| - 1];
      var y := xs[|xs| - 1];
      OccShifting(ys, L);
      if y % 3 != 0 {
        OccSnoc(Shifting(ys), y, L);
      } else {
        assert Shifting(xs) == Shifting(ys);
      }
    }
  }

  lemma {:induction false} ShiftingBelow(xs: seq<nat>, n: nat)
    requires AllBelow(xs, n)
    ensures AllBelow(Shifting(xs), n)
    decreases |xs|
  {
    if xs != [] {
      ShiftingBelow(xs[..|xs| - 1], n);
    }
  }

  lemma {:induction false} ShiftSumPrefix(h: seq<nat>, xs: seq<nat>, n: nat)
    requires IsHistogramOf(h, xs) && n <= |h|
    ensures ShiftSum(h[..n]) == CountBelow(Shifting(xs), n)
    decreases n
  {
    if n == 0 {
      CountBelowZero(Shifting(xs));
    } else {
      assert h[..n][..n - 1] == h[..n - 1];
      ShiftSumPrefix(h, xs, n - 1);
      CountBelowStep(Shifting(xs), n - 1);
      OccShifting(xs, n - 1);
    }
  }

  /** Every value is either shifting or in frame. */
  lemma {:induction false} ShiftingSplit(xs: seq<nat>)
    ensures |Shifting(xs)| + |InFrame(xs)| == |xs|
    decreases |xs|
  {
    if xs != [] {
      ShiftingSplit(xs[..|xs| - 1]);
    }
  }

  /** frameshift applied to a histogram of run lengths: total is the number
      of runs, shifting the number of runs whose length is not a multiple
      of 3, and the runs of a length divisible by 3 make up the rest. */
  lemma FrameshiftOfHistogram(h: seq<nat>, xs: seq<nat>)
    requires IsHistogramOf(h, xs) && AllBelow(xs, |h|)
    ensures Sum(h) == |xs|
    ensures ShiftSum(h) == |Shifting(xs)|
    ensures ShiftSum(h) + |InFrame(xs)| == Sum(h)
  {
    SumOfHistogram(h, xs);
    ShiftSumPrefix(h, xs, |h|);
    assert h[..|h|] == h;
    ShiftingBelow(xs, |h|);
    CountBelowAll(Shifting(xs), |h|);
    ShiftingSplit(xs);
  }

  // ---------------------------------------------------------------------
  // position: a 101-bucket histogram of where runs start

  predicate EndsInGap(s: string) {
    |s| > 0 && s[|s| - 1] == GAP
  }

  /** No sequence of ss ends in a gap. */
  predicate NoneEndsInGap(ss: seq<string>) {
    forall j :: 0 <= j < |ss| ==> !EndsInGap(ss[j])
  }

  /** The bucket position files each run start p under: p / |s|. */
  function StartBuckets(s: string, ps: seq<nat>): (r: seq<nat>)
    requires forall k :: 0 <= k < |ps| ==> ps[k] < |s|
    ensures |r| == |ps|
  {
    if ps == [] then [] else
      var p := ps[|ps| - 1];
      assert p < |s|;
      StartBuckets(s, ps[..|ps| - 1]) + [p / |s|]
  }

  function SeqStartBuckets(s: string): seq<nat> {
    StartBuckets(s, Runs(s))
  }

  lemma StartBucketsSnoc(s: string, ps: seq<nat>, p: nat)
    requires forall k :: 0 <= k < |ps| ==> ps[k] < |s|
    requires p < |s|
    ensures StartBuckets(s, ps + [p]) == StartBuckets(s, ps) + [p / |s|]
  {
    assert (ps + [p])[..|ps|] == ps;
  }

  lemma DivBelow(p: nat, n: nat)
    requires p < n
    ensures p / n == 0
  {
  }

  lemma NextStartBuckets(s: string, pos: nat, e: nat, next: nat)
    requires IsRunStart(s, pos) && e == pos + RunLength(s, pos) && next == FindGap(s, e + 1)
    ensures pos < next <= |s|
    ensures StartBuckets(s, RunStarts(s, next)) == StartBuckets(s, RunStarts(s, pos)) + [pos / |s|]
    ensures next < |s| ==> IsRunStart(s, next)
    ensures next == |s| && e < |s| ==> !EndsInGap(s)
  {
    ScanStep(s, pos, e, next);
    StartBucketsSnoc(s, RunStarts(s, pos), pos);
  }

  lemma {:induction false} StartBucketsZero(s: string, ps: seq<nat>)
    requires forall k :: 0 <= k < |ps| ==> ps[k] < |s|
    ensures AllBelow(StartBuckets(s, ps), 1)
    decreases |ps|
  {
    if ps != [] {
      StartBucketsZero(s, ps[..|ps| - 1]);
    }
  }

  /** The skip loop of position: walks to the first non-gap after pos. In
      the source it reads with a bounds-checked access and no end test, so
      reaching e == |s| is where it faults. */
  method SkipRun(s: string, pos: nat) returns (e: nat)
    requires IsRunStart(s, pos)
    ensures e == pos + RunLength(s, pos)
  {
    e := pos;
    while e < |s| && s[e] == GAP
      invariant pos <= e <= |s|
      invariant forall k :: pos <= k < e ==> s[k] == GAP
      decreases |s| - e
    {
      e := e + 1;
    }
    RunEnd(s, pos, e);
  }

  /** The scan of one sequence in position. It adds one to bucket pos / |s|
      for every run start pos, and its skip loop reads past the end of a
      sequence whose last run reaches the end: that is the out_of_range
      fault, reported as ok == false. */
  method PositionRuns(s: string, gaps: array<nat>) returns (ok: bool)
    requires gaps.Length == 101
    modifies gaps
    ensures ok <==> !EndsInGap(s)
    ensures ok ==> Tallied(gaps[..], old(gaps[..]), SeqStartBuckets(s))
  {
    ghost var start := gaps[..];
    var pos := FindGap(s, 0);
    FirstRun(s, pos);
    ghost var seen: seq<nat> := [];
    while pos < |s|
      invariant pos <= |s|
      invariant pos < |s| ==> IsRunStart(s, pos)
      invariant pos == |s| ==> !EndsInGap(s)
      invariant seen == StartBuckets(s, RunStarts(s, pos))
      invariant Tallied(gaps[..], start, seen)
      decreases |s| - pos
    {
      // store the current gap position
      var b := pos / |s|;
      DivBelow(pos, |s|);
      ghost var before := gaps[..];
      TallyBump(before, start, seen, b);
      gaps[b] := gaps[b] + 1;
      assert gaps[..] == before[b := before[b] + 1];
      // skip the run; reading at the end of the sequence faults
      var e := SkipRun(s, pos);
      if e == |s| {
        return false;
      }
      var next := FindGap(s, e + 1);
      NextStartBuckets(s, pos, e, next);
      seen := seen + [b];
      pos := next;
    }
    return true;
  }

  /** position over the sequences of one file: stops at the first sequence
      that ends in a gap. */
  method PositionFile(ss: seq<string>, gaps: array<nat>) returns (ok: bool)
    requires gaps.Length == 101
    modifies gaps
    ensures ok <==> NoneEndsInGap(ss)
    ensures ok ==> Tallied(gaps[..], old(gaps[..]), FileGather(ss, SeqStartBuckets))
  {
    ghost var start := gaps[..];
    assert Tallied(start, start, []);
    var i := 0;
    while i < |ss|
      invariant 0 <= i <= |ss|
      invariant NoneEndsInGap(ss[..i])
      invariant Tallied(gaps[..], start, FileGather(ss[..i], SeqStartBuckets))
    {
      ghost var before := gaps[..];
      ok := PositionRuns(ss[i], gaps);
      if !ok {
        return false;
      }
      TalliedTrans(start, before, gaps[..], FileGather(ss[..i], SeqStartBuckets), SeqStartBuckets(ss[i]));
      FileGatherStep(ss, i, SeqStartBuckets);
      i := i + 1;
    }
    assert ss[..i] == ss;
    return true;
  }

  /** position over all files: 101 buckets, each run start counted in the
      bucket of its sequence; any sequence that ends in a gap makes the
      whole call fail with out_of_range. */
  method Position(files: seq<seq<string>>) returns (r: Result<seq<nat>>)
    ensures r.Err? <==> exists f :: 0 <= f < |files| && !NoneEndsInGap(files[f])
    ensures r.Err? ==> r.error == OutOfRange
    ensures r.Ok? ==> |r.value| == 101 && IsHistogramOf(r.value, Gather(files, SeqStartBuckets))
  {
    var gaps := new nat[101](_ => 0);
    var f := 0;
    while f < |files|
      invariant 0 <= f <= |files|
      invariant IsHistogramOf(gaps[..], Gather(files[..f], SeqStartBuckets))
      invariant forall g :: 0 <= g < f ==> NoneEndsInGap(files[g])
    {
      ghost var before := gaps[..];
      var ok := PositionFile(files[f], gaps);
      if !ok {
        return Err(OutOfRange);
      }
      HistogramExtend(before, gaps[..], Gather(files[..f], SeqStartBuckets), FileGather(files[f], SeqStartBuckets));
      GatherStep(files, f, SeqStartBuckets);
      f := f + 1;
    }
    assert files[..f] == files;
    return Ok(gaps[..]);
  }

  lemma {:induction false} FileGatherBelow(ss: seq<string>, m: string -> seq<nat>, n: nat)
    requires forall s :: AllBelow(m(s), n)
    ensures AllBelow(FileGather(ss, m), n)
    decreases |ss|
  {
    if ss != [] {
      FileGatherBelow(ss[..|ss| - 1], m, n);
      assert AllBelow(m(ss[|ss| - 1]), n);
    }
  }

  lemma {:induction false} FileGatherBelowIn(ss: seq<string>, m: string -> seq<nat>, n: nat)
    requires forall s :: s in ss ==> AllBelow(m(s), n)
    ensures AllBelow(FileGather(ss, m), n)
    decreases |ss|
  {
    if ss != [] {
      FileGatherBelowIn(ss[..|ss| - 1], m, n);
      assert AllBelow(m(ss[|ss| - 1]), n);
    }
  }

  lemma {:induction false} GatherBelow(files: seq<seq<string>>, m: string -> seq<nat>, n: nat)
    requires forall s :: AllBelow(m(s), n)
    ensures AllBelow(Gather(files, m), n)
    decreases |files|
  {
    if files != [] {
      GatherBelow(files[..|files| - 1], m, n);
      FileGatherBelow(files[|files| - 1], m, n);
    }
  }

  lemma {:induction false} FileGatherSameLength(ss: seq<string>, m: string -> seq<nat>, m': string -> seq<nat>)
    requires forall s :: |m(s)| == |m'(s)|
    ensures |FileGather(ss, m)| == |FileGather(ss, m')|
    decreases |ss|
  {
    if ss != [] {
      FileGatherSameLength(ss[..|ss| - 1], m, m');
      assert |m(ss[|ss| - 1])| == |m'(ss[|ss| - 1])|;
    }
  }

  lemma {:induction false} GatherSameLength(files: seq<seq<string>>, m: string -> seq<nat>, m': string -> seq<nat>)
    requires forall s :: |m(s)| == |m'(s)|
    ensures |Gather(files, m)| == |Gather(files, m')|
    decreases |files|
  {
    if files != [] {
      GatherSameLength(files[..|files| - 1], m, m');
      FileGatherSameLength(files[|files| - 1], m, m');
    }
  }

  /** What position reports: every run start of every sequence lands in
      bucket 0, so bucket 0 holds the number of gap runs and buckets 1..100
      stay 0. */
  lemma PositionOnlyBucketZero(files: seq<seq<string>>, h: seq<nat>)
    requires |h| == 101 && IsHistogramOf(h, Gather(files, SeqStartBuckets))
    ensures h[0] == |AllRunLengths(files)|
    ensures forall k :: 1 <= k < 101 ==> h[k] == 0
  {
    forall s
      ensures AllBelow(SeqStartBuckets(s), 1)
    {
      StartBucketsZero(s, Runs(s));
    }
    GatherBelow(files, SeqStartBuckets, 1);
    GatherSameLength(files, SeqStartBuckets, SeqRunLengths);
    OccAllZero(Gather(files, SeqStartBuckets));
    forall k | 1 <= k < 101
      ensures h[k] == 0
    {
      OccBounded(Gather(files, SeqStartBuckets), 1, k);
    }
  }

  /** A sequence whose last run reaches its end makes position fail, while
      count reads the same run without fault. */
  lemma PositionFailsOnTrailingRun()
    ensures !NoneEndsInGap(["AC-"])
    ensures SeqRunLengths("AC-") == [1]
  {
    var s := "AC-";
    assert EndsInGap(["AC-"][0]);
    assert !IsRunStart(s, 0) && !IsRunStart(s, 1) && IsRunStart(s, 2);
    assert RunStarts(s, 2) == [];
    assert Runs(s) == [2];
    assert RunLength(s, 2) == 1;
    assert [2][..0] == [];
  }

  // ---------------------------------------------------------------------
  // position with the bucket taken as a percentage and the skip loop
  // bounded by the sequence end

  lemma MulMono(a: nat, b: nat, n: nat)
    ensures a >= b ==> a * n >= b * n
  {
  }

  /** Truncated division of p * 100 by d, for 0 <= p <= d, stays within
      [0, 100] and reaches both ends. */
  lemma PercentBounds(p: nat, d: nat, q: nat)
    requires 0 < d && p <= d && q == p * 100 / d
    ensures q <= 100
    ensures p == 0 ==> q == 0
    ensures p == d ==> q == 100
  {
    assert q * d <= p * 100 < q * d + d;
    MulMono(d, p, 100);
    MulMono(q, 101, d);
    MulMono(100, q + 1, d);
  }

  /** The relative position of p within a sequence of length n: p as a
      percentage of n - 1, truncated, so that the first character is at 0
      and the last at 100; a one-character sequence puts its only position
      at 0. */
  function Percent(p: nat, n: nat): (r: nat)
    requires p < n
    ensures r <= 100
    ensures p == 0 ==> r == 0
    ensures n >= 2 && p == n - 1 ==> r == 100
  {
    if n <= 1 then 0
    else
      var q := p * 100 / (n - 1);
      PercentBounds(p, n - 1, q);
      q
  }

  /** Bucket Percent(p, |s|) for each run start p. */
  function PercentBuckets(s: string, ps: seq<nat>): (r: seq<nat>)
    requires forall k :: 0 <= k < |ps| ==> ps[k] < |s|
    ensures |r| == |ps|
    ensures AllBelow(r, 101)
  {
    if ps == [] then [] else PercentBuckets(s, ps[..|ps| - 1]) + [Percent(ps[|ps| - 1], |s|)]
  }

  function SeqPercentBuckets(s: string): seq<nat> {
    PercentBuckets(s, Runs(s))
  }

  lemma NextPercentBuckets(s: string, pos: nat, e: nat, next: nat)
    requires IsRunStart(s, pos) && e == pos + RunLength(s, pos) && next == FindGap(s, e + 1)
    ensures pos < next <= |s|
    ensures PercentBuckets(s, RunStarts(s, next)) == PercentBuckets(s, RunStarts(s, pos)) + [Percent(pos, |s|)]
    ensures next < |s| ==> IsRunStart(s, next)
  {
    ScanStep(s, pos, e, next);
    var ps := RunStarts(s, pos);
    assert (ps + [pos])[..|ps|] == ps;
  }

  /** The corrected scan has tallied the percentage buckets of the run
      starts before pos. */
  ghost predicate PercentScanned(s: string, pos: nat, gaps: seq<nat>, start: seq<nat>) {
    pos <= |s| && (pos < |s| ==> IsRunStart(s, pos))
    && Tallied(gaps, start, PercentBuckets(s, RunStarts(s, pos)))
  }

  /** One step of the corrected scan: count the run at pos and move to the
      next run start. */
  method PercentStep(s: string, pos: nat, gaps: array<nat>, ghost start: seq<nat>) returns (next: nat)
    requires gaps.Length == 101 && pos < |s|
    requires PercentScanned(s, pos, gaps[..], start)
    modifies gaps
    ensures pos < next && PercentScanned(s, next, gaps[..], start)
  {
    ghost var seen := PercentBuckets(s, RunStarts(s, pos));
    var b := Percent(pos, |s|);
    ghost var before := gaps[..];
    TallyBump(before, start, seen, b);
    gaps[b] := gaps[b] + 1;
    assert gaps[..] == before[b := before[b] + 1];
    var n := WalkRun(s, pos);
    var e := pos + n;
    next := FindGap(s, e + 1);
    NextPercentBuckets(s, pos, e, next);
  }

  method PositionFixedRuns(s: string, gaps: array<nat>)
    requires gaps.Length == 101
    modifies gaps
    ensures Tallied(gaps[..], old(gaps[..]), SeqPercentBuckets(s))
  {
    ghost var start := gaps[..];
    var pos := FindGap(s, 0);
    FirstRun(s, pos);
    while pos < |s|
      invariant PercentScanned(s, pos, gaps[..], start)
      decreases |s| - pos
    {
      pos := PercentStep(s, pos, gaps, start);
    }
  }

  /** position as evidently intended: never fails, and files each run start
      under its relative position in percent. */
  method PositionFixed(files: seq<seq<string>>) returns (r: seq<nat>)
    ensures |r| == 101 && IsHistogramOf(r, Gather(files, SeqPercentBuckets))
  {
    var gaps := new nat[101](_ => 0);
    var f := 0;
    while f < |files|
      invariant 0 <= f <= |files|
      invariant IsHistogramOf(gaps[..], Gather(files[..f], SeqPercentBuckets))
    {
      var ss := files[f];
      ghost var fileStart := gaps[..];
      assert ss[..0] == [] && Tallied(fileStart, fileStart, []);
      var i := 0;
      while i < |ss|
        invariant 0 <= i <= |ss|
        invariant Tallied(gaps[..], fileStart, FileGather(ss[..i], SeqPercentBuckets))
      {
        ghost var before := gaps[..];
        PositionFixedRuns(ss[i], gaps);
        TalliedTrans(fileStart, before, gaps[..], FileGather(ss[..i], SeqPercentBuckets), SeqPercentBuckets(ss[i]));
        FileGatherStep(ss, i, SeqPercentBuckets);
        i := i + 1;
      }
      assert ss[..i] == ss;
      HistogramExtend(fileStart, gaps[..], Gather(files[..f], SeqPercentBuckets), FileGather(ss, SeqPercentBuckets));
      GatherStep(files, f, SeqPercentBuckets);
      f := f + 1;
    }
    assert files[..f] == files;
    r := gaps[..];
  }

  /** The last character of s starts a gap run of its own. */
  predicate LastStartsRun(s: string) {
    |s| >= 2 && IsRunStart(s, |s| - 1)
  }

  /** A run that starts at the last character is filed under bucket 100. */
  lemma LastRunInLastBucket(s: string)
    requires LastStartsRun(s)
    ensures 100 in SeqPercentBuckets(s)
  {
    var n := |s|;
    var ps := RunStarts(s, n);
    assert ps == RunStarts(s, n - 1) + [n - 1];
    assert ps[..|ps| - 1] == RunStarts(s, n - 1);
    assert SeqPercentBuckets(s)[|ps| - 1] == Percent(n - 1, n);
  }

  lemma {:induction false} FileGatherHas(ss: seq<string>, m: string -> seq<nat>, i: nat, x: nat)
    requires i < |ss| && x in m(ss[i])
    ensures x in FileGather(ss, m)
    decreases |ss|
  {
    if i < |ss| - 1 {
      assert ss[..|ss| - 1][i] == ss[i];
      FileGatherHas(ss[..|ss| - 1], m, i, x);
    }
  }

  lemma {:induction false} GatherHas(files: seq<seq<string>>, m: string -> seq<nat>, f: nat, i: nat, x: nat)
    requires f < |files| && i < |files[f]| && x in m(files[f][i])
    ensures x in Gather(files, m)
    decreases |files|
  {
    if f == |files| - 1 {
      FileGatherHas(files[f], m, i, x);
    } else {
      assert files[..|files| - 1][f] == files[f];
      GatherHas(files[..|files| - 1], m, f, i, x);
    }
  }

  /** Under the corrected position every gap run is counted exactly once,
      and bucket 100 is reached: it is not empty as soon as some sequence
      has a run starting at its last character. */
  lemma PositionFixedCountsEveryRun(files: seq<seq<string>>, h: seq<nat>)
    requires |h| == 101 && IsHistogramOf(h, Gather(files, SeqPercentBuckets))
    ensures Sum(h) == |AllRunLengths(files)|
    ensures (exists f, i :: 0 <= f < |files| && 0 <= i < |files[f]| && LastStartsRun(files[f][i])) ==> h[100] > 0
  {
    forall s
      ensures AllBelow(SeqPercentBuckets(s), 101)
    {
    }
    GatherBelow(files, SeqPercentBuckets, 101);
    GatherSameLength(files, SeqPercentBuckets, SeqRunLengths);
    SumOfHistogram(h, Gather(files, SeqPercentBuckets));
    if exists f, i :: 0 <= f < |files| && 0 <= i < |files[f]| && LastStartsRun(files[f][i]) {
      var f, i :| 0 <= f < |files| && 0 <= i < |files[f]| && LastStartsRun(files[f][i]);
      LastRunInLastBucket(files[f][i]);
      GatherHas(files, SeqPercentBuckets, f, i, 100);
      OccPositive(Gather(files, SeqPercentBuckets), 100);
    }
  }

  /** The same run start that position files under 0 lies halfway into the
      sequence. */
  lemma PositionBucketExample()
    ensures SeqStartBuckets("A-C") == [0]
    ensures SeqPercentBuckets("A-C") == [50]
  {
    var s := "A-C";
    assert !IsRunStart(s, 0) && IsRunStart(s, 1) && !IsRunStart(s, 2);
    assert RunStarts(s, 1) == [];
    assert RunStarts(s, 2) == [1];
    assert Runs(s) == [1];
    assert [1][..0] == [];
    assert Percent(1, 3) == 50;
  }

  // ---------------------------------------------------------------------
  // phase: the reading-frame phase (start mod 3) of each gap run

  /** p is a start that phase records. After recording a start p the skip
      loop steps to p + 1 and then over the gaps that follow p + 1, so when
      p + 1 is not a gap a run starting at p + 2 is stepped over unseen. A
      run start is therefore recorded unless the start two places before it
      was recorded. */
  predicate Recorded(s: string, p: nat)
    decreases p
  {
    IsRunStart(s, p) && !(p >= 2 && Recorded(s, p - 2))
  }

  /** The starts phase records below hi, in increasing order. */
  function PhaseStarts(s: string, hi: nat): (r: seq<nat>)
    requires hi <= |s|
    ensures forall k :: 0 <= k < |r| ==> r[k] < hi
  {
    if hi == 0 then []
    else PhaseStarts(s, hi - 1) + (if Recorded(s, hi - 1) then [hi - 1] else [])
  }

  /** The phase (position mod 3) of each start. */
  function Residues(ps: seq<nat>): (r: seq<nat>)
    ensures |r| == |ps|
    ensures AllBelow(r, 3)
  {
    if ps == [] then [] else Residues(ps[..|ps| - 1]) + [ps[|ps| - 1] % 3]
  }

  /** The phases phase records for one sequence. */
  function SeqPhases(s: string): seq<nat> {
    Residues(PhaseStarts(s, |s|))
  }

  lemma {:induction false} NoRecordedBetween(s: string, a: nat, b: nat)
    requires a <= b <= |s|
    requires forall p :: a <= p < b ==> !Recorded(s, p)
    ensures PhaseStarts(s, b) == PhaseStarts(s, a)
    decreases b - a
  {
    if a < b {
      NoRecordedBetween(s, a, b - 1);
    }
  }

  lemma FirstRecorded(s: string, pos: nat)
    requires pos == FindGap(s, 0)
    ensures PhaseStarts(s, pos) == []
    ensures pos < |s| ==> Recorded(s, pos)
  {
    NoRecordedBetween(s, 0, pos);
    if pos >= 2 {
      assert !IsRunStart(s, pos - 2);
    }
  }

  /** Every position from lo through hi holds a gap. */
  predicate GapsThrough(s: string, lo: int, hi: int) {
    forall k :: lo <= k <= hi ==> 0 <= k < |s| && s[k] == GAP
  }

  /** One round of phase's scan: from the recorded start p, the do-while
      loop stops at q and the search from q + 1 finds next, the next
      recorded start (or npos); p is the only recorded start passed. */
  lemma {:induction false} PhaseStep(s: string, p: nat, q: nat, next: nat)
    requires Recorded(s, p) && p + 1 <= q <= |s|
    requires GapsThrough(s, p + 2, q)
    requires q + 1 >= |s| || s[q + 1] != GAP
    requires next == FindGap(s, q + 1)
    ensures p < next <= |s|
    ensures Residues(PhaseStarts(s, next)) == Residues(PhaseStarts(s, p)) + [p % 3]
    ensures next < |s| ==> Recorded(s, next)
  {
    forall k | p < k < next
      ensures !Recorded(s, k)
    {
      if k == p + 1 {
        assert s[k - 1] == GAP;
      } else if k <= q {
        if k > p + 2 {
          assert s[k - 1] == GAP;
        }
      } else {
        assert s[k] != GAP;
      }
    }
    assert PhaseStarts(s, p + 1) == PhaseStarts(s, p) + [p];
    NoRecordedBetween(s, p + 1, next);
    var ps := PhaseStarts(s, p);
    assert (ps + [p])[..|ps|] == ps;
    if next < |s| {
      assert s[next - 1] != GAP;
      assert !Recorded(s, next - 2);
    }
  }

  /** phase's do-while loop after recording p: one step, then on over the
      gaps that follow. */
  method PhaseSkip(s: string, p: nat) returns (q: nat)
    requires p < |s|
    ensures p + 1 <= q <= |s|
    ensures GapsThrough(s, p + 2, q)
    ensures q + 1 >= |s| || s[q + 1] != GAP
  {
    q := p + 1;
    while q + 1 < |s| && s[q + 1] == GAP
      invariant p + 1 <= q <= |s|
      invariant GapsThrough(s, p + 2, q)
      decreases |s| - q
    {
      q := q + 1;
    }
  }

  /** The scan of one sequence in phase: one added to bucket pos % 3 for
      every recorded start pos. */
  method PhaseRuns(s: string, phase: array<nat>)
    requires phase.Length == 3
    modifies phase
    ensures Tallied(phase[..], old(phase[..]), SeqPhases(s))
  {
    ghost var start := phase[..];
    var pos := FindGap(s, 0);
    FirstRecorded(s, pos);
    ghost var seen: seq<nat> := [];
    while pos < |s|
      invariant pos <= |s|
      invariant pos < |s| ==> Recorded(s, pos)
      invariant seen == Residues(PhaseStarts(s, pos))
      invariant Tallied(phase[..], start, seen)
      decreases |s| - pos
    {
      // add the current gap
      ghost var p := pos;
      ghost var before := phase[..];
      TallyBump(before, start, seen, pos % 3);
      phase[pos % 3] := phase[pos % 3] + 1;
      assert phase[..] == before[p % 3 := before[p % 3] + 1];
      pos := PhaseSkip(s, pos);
      // look for the next gap
      var next := FindGap(s, pos + 1);
      PhaseStep(s, p, pos, next);
      seen := seen + [p % 3];
      pos := next;
    }
  }

  /** The integer part of phase over all files: entry k counts the recorded
      starts whose position mod 3 is k. */
  method Phase(files: seq<seq<string>>) returns (r: seq<nat>)
    ensures |r| == 3 && IsHistogramOf(r, Gather(files, SeqPhases))
  {
    var phase := new nat[3](_ => 0);
    var f := 0;
    while f < |files|
      invariant 0 <= f <= |files|
      invariant IsHistogramOf(phase[..], Gather(files[..f], SeqPhases))
    {
      var ss := files[f];
      ghost var fileStart := phase[..];
      assert ss[..0] == [] && Tallied(fileStart, fileStart, []);
      var i := 0;
      while i < |ss|
        invariant 0 <= i <= |ss|
        invariant Tallied(phase[..], fileStart, FileGather(ss[..i], SeqPhases))
      {
        ghost var before := phase[..];
        PhaseRuns(ss[i], phase);
        TalliedTrans(fileStart, before, phase[..], FileGather(ss[..i], SeqPhases), SeqPhases(ss[i]));
        FileGatherStep(ss, i, SeqPhases);
        i := i + 1;
      }
      assert ss[..i] == ss;
      HistogramExtend(fileStart, phase[..], Gather(files[..f], SeqPhases), FileGather(ss, SeqPhases));
      GatherStep(files, f, SeqPhases);
      f := f + 1;
    }
    assert files[..f] == files;
    r := phase[..];
  }

  /** phase's three counts add up to the number of starts it records. */
  lemma PhaseSumIsRecordedStarts(files: seq<seq<string>>, h: seq<nat>)
    requires |h| == 3 && IsHistogramOf(h, Gather(files, SeqPhases))
    ensures Sum(h) == |Gather(files, SeqPhases)|
  {
    forall s
      ensures AllBelow(SeqPhases(s), 3)
    {
    }
    GatherBelow(files, SeqPhases, 3);
    SumOfHistogram(h, Gather(files, SeqPhases));
  }

  /** Every start phase records is a gap-run start, and two recorded starts
      lie at least 3 apart. */
  lemma RecordedSpacing(s: string, p: nat, q: nat)
    requires Recorded(s, p) && Recorded(s, q) && p < q
    ensures IsRunStart(s, p) && p + 3 <= q
  {
    assert s[p] == GAP;
  }

  /** A run start two places after a run of two or more gaps cannot be a
      run start. */
  lemma LongRunBlocks(s: string, p: nat)
    requires IsRunStart(s, p) && RunLength(s, p) >= 2
    ensures !IsRunStart(s, p + 2)
  {
    assert s[p + 1] == GAP;
  }

  /** When no gap run has length 1, phase records exactly the run starts. */
  lemma {:induction false} PhaseRecordsAllLongRuns(s: string, hi: nat)
    requires hi <= |s|
    requires forall p :: IsRunStart(s, p) ==> RunLength(s, p) >= 2
    ensures PhaseStarts(s, hi) == RunStarts(s, hi)
    decreases hi
  {
    if hi > 0 {
      PhaseRecordsAllLongRuns(s, hi - 1);
      var p := hi - 1;
      if p >= 2 && IsRunStart(s, p - 2) {
        LongRunBlocks(s, p - 2);
      }
    }
  }

  /** The skip in phase: in "-A-" there are gap runs at 0 and 2, but phase
      records only the one at 0. */
  lemma PhaseSkipsRun()
    ensures Runs("-A-") == [0, 2]
    ensures PhaseStarts("-A-", 3) == [0]
  {
    var s := "-A-";
    assert IsRunStart(s, 0) && !IsRunStart(s, 1) && IsRunStart(s, 2);
    assert Recorded(s, 0) && !Recorded(s, 2);
    assert RunStarts(s, 1) == [0];
    assert RunStarts(s, 2) == [0];
    assert RunStarts(s, 3) == [0, 2];
    assert PhaseStarts(s, 1) == [0];
    assert PhaseStarts(s, 2) == [0];
  }

  // ---------------------------------------------------------------------
  // phase as evidently intended: one record per gap run

  /** The phase of every gap run of s. */
  function SeqRunPhases(s: string): seq<nat> {
    Residues(Runs(s))
  }

  lemma NextRunPhases(s: string, pos: nat, n: nat, next: nat)
    requires IsRunStart(s, pos) && n == RunLength(s, pos) && next == FindGap(s, pos + n + 1)
    ensures pos < next <= |s|
    ensures Residues(RunStarts(s, next)) == Residues(RunStarts(s, pos)) + [pos % 3]
    ensures next < |s| ==> IsRunStart(s, next)
  {
    ScanStep(s, pos, pos + n, next);
    var ps := RunStarts(s, pos);
    assert (ps + [pos])[..|ps|] == ps;
  }

  /** Per sequence: the run is walked to its end, as count does, before the
      next search. */
  method PhaseFixedRuns(s: string, phase: array<nat>)
    requires phase.Length == 3
    modifies phase
    ensures Tallied(phase[..], old(phase[..]), SeqRunPhases(s))
  {
    ghost var start := phase[..];
    var pos := FindGap(s, 0);
    FirstRun(s, pos);
    ghost var seen: seq<nat> := [];
    while pos < |s|
      invariant pos <= |s|
      invariant pos < |s| ==> IsRunStart(s, pos)
      invariant seen == Residues(RunStarts(s, pos))
      invariant Tallied(phase[..], start, seen)
      decreases |s| - pos
    {
      ghost var before := phase[..];
      TallyBump(before, start, seen, pos % 3);
      phase[pos % 3] := phase[pos % 3] + 1;
      assert phase[..] == before[pos % 3 := before[pos % 3] + 1];
      var n := WalkRun(s, pos);
      var next := FindGap(s, pos + n + 1);
      NextRunPhases(s, pos, n, next);
      seen := seen + [pos % 3];
      pos := next;
    }
  }

  /** phase with every gap run recorded: entry k counts the runs whose start
      is k mod 3. */
  method PhaseFixed(files: seq<seq<string>>) returns (r: seq<nat>)
    ensures |r| == 3 && IsHistogramOf(r, Gather(files, SeqRunPhases))
  {
    var phase := new nat[3](_ => 0);
    var f := 0;
    while f < |files|
      invariant 0 <= f <= |files|
      invariant IsHistogramOf(phase[..], Gather(files[..f], SeqRunPhases))
    {
      var ss := files[f];
      ghost var fileStart := phase[..];
      assert ss[..0] == [] && Tallied(fileStart, fileStart, []);
      var i := 0;
      while i < |ss|
        invariant 0 <= i <= |ss|
        invariant Tallied(phase[..], fileStart, FileGather(ss[..i], SeqRunPhases))
      {
        ghost var before := phase[..];
        PhaseFixedRuns(ss[i], phase);
        TalliedTrans(fileStart, before, phase[..], FileGather(ss[..i], SeqRunPhases), SeqRunPhases(ss[i]));
        FileGatherStep(ss, i, SeqRunPhases);
        i := i + 1;
      }
      assert ss[..i] == ss;
      HistogramExtend(fileStart, phase[..], Gather(files[..f], SeqRunPhases), FileGather(ss, SeqRunPhases));
      GatherStep(files, f, SeqRunPhases);
      f := f + 1;
    }
    assert files[..f] == files;
    r := phase[..];
  }

  /** The corrected counts add up to the number of gap runs, the same total
      count's histogram has. */
  lemma PhaseFixedCountsEveryRun(files: seq<seq<string>>, h: seq<nat>)
    requires |h| == 3 && IsHistogramOf(h, Gather(files, SeqRunPhases))
    ensures Sum(h) == |AllRunLengths(files)|
  {
    forall s
      ensures AllBelow(SeqRunPhases(s), 3)
    {
    }
    GatherBelow(files, SeqRunPhases, 3);
    GatherSameLength(files, SeqRunPhases, SeqRunLengths);
    SumOfHistogram(h, Gather(files, SeqRunPhases));
  }
}
