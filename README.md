# Alignment statistics engine, modelled in Dafny

This project models the statistics engine of the `sasi`/`algas` alignment
tools. That engine has five parts:

- It reads FASTA records (`read_fasta`).
- It scans aligned sequences for runs of the gap symbol `-`. This gives a gap
  length histogram (`count`), a gap position histogram (`position`), the
  codon phase of each gap start (`phase`) and the frameshift summary of a
  length histogram (`frameshift`).
- It computes sequence statistics: early stop codons at three levels of
  detail, the number of sequences whose length is not a multiple of
  three, and the number of ambiguous nucleotide codes.
- It provides the `data_t` record with its `size()` and `len()` accessors,
  and two utilities. `extract_file_type` splits `ext:path` arguments;
  `write_histogram` prints the non-zero entries of a histogram.
- It has CSV writers that turn each result into output lines.

The modules follow the source files:

| module | file | form |
|---|---|---|
| `Results` | error kinds | `Result`/`Option` datatypes standing in for exceptions |
| `Text` | shared text helpers | whitespace, `trim`, decimal printing of `size_t`, CSV rows and reading them back |
| `Tally` | shared histogram helpers | occurrence counts, histograms, sums |
| `Structs` | `src/include/algas/structs.hpp` | datatypes and pure accessors |
| `Fasta` | `src/lib/fasta.cpp` | a specification function `Parse` and the line loop `ReadFasta` proved equal to it |
| `Gap` | `src/lib/gap.cpp` | methods with the source's nested loops over local `array`s and `seq` histograms, each proved against a specification function |
| `Sequence` | `src/lib/sequence.cpp` | loop methods for stop codons, length frameshifts and ambiguous bases, proved against specification functions |
| `Utils` | `src/lib/utils.cpp` | `ExtractFileType` as a function; `WriteHistogram` as a loop writing to an `OutStream` |
| `Stream` | `std::ostream` | a class whose `lines` field the writers extend |
| `GapOutput`, `SeqOutput` | `src/lib/output.cpp` | one method per writer, extending `out.lines` |

Input files are given as already-parsed data. The gap scanners, the length
frameshift count and the ambiguous count take each file's list of
sequences. The stop codon count takes whole `Data` records, because it
reports paths and names. Each scanner's result is stated as a histogram of
a list of per-run values, gathered file by file and sequence by sequence.
Lemmas then relate those lists to the runs of gaps in the sequences.

The C++ `size_t` counters are modelled as unbounded `nat`. Every CSV row
is a decimal rendering, and the `Text` module proves that reading a row
back gives the numbers that were written.

Two behaviours of the code are easy to miss:

- A header line with an empty name still appends `""` to the names. Its
  pending content is dropped, because content is pushed only when the
  previous name is non-empty. A header with a non-empty name, or the last
  header, still gets an empty sequence when no content lines follow it
  (`Fasta.ReadEmptyNameDropsContent`, `Fasta.ReadTrailingHeader`).
- Sequences with zero stop codons still produce a row at file and
  sequence detail (`Sequence.FileRows`, `Sequence.SeqRows`).

## Model

| member | source | states |
|---|---|---|
| Text.RemoveSpaces | src/lib/fasta.cpp:51-52 | the result holds no whitespace character and is no longer than the line, and a line without whitespace is kept unchanged |
| Text.RemoveSpacesKeeps | src/lib/fasta.cpp:51-52 | every character that is not whitespace occurs in the result exactly as often as in the line |
| Text.RemoveSpacesAppend | src/lib/fasta.cpp:51-52 | erasing whitespace from two pieces joined is erasing it from each and joining the results, so the order of the kept characters is that of the line |
| Text.TrimLeft | src/lib/utils.cpp:11-12 | the result is a suffix of the input, starts with a non-space, and everything removed is whitespace |
| Text.TrimRight | src/lib/utils.cpp:11-12 | the result is a prefix of the input, ends with a non-space, and everything removed is whitespace |
| Text.Trim | src/lib/utils.cpp:11-12 | the result neither starts nor ends with whitespace and is no longer than the input |
| Text.LeadingSpaces | src/lib/utils.cpp:11-12 | the count of leading whitespace characters: all characters before it are whitespace and the one at it is not |
| Text.TrimSlice | src/lib/utils.cpp:11-12 | the trimmed text is the unchanged slice of the input that starts after the leading whitespace, and only whitespace follows it |
| Text.TrimFixpoint | src/lib/utils.cpp:11-12 | text that already has no surrounding whitespace is left unchanged by trimming |
| Text.TrimIdempotent | src/lib/utils.cpp:11-12 | trimming twice is the same as trimming once |
| Text.NatToString | src/lib/output.cpp:21 | a count prints as a non-empty string of decimal digits with no leading zero |
| Text.NatToStringRoundTrip | src/lib/output.cpp:21 | reading the printed digits back gives the count |
| Text.RowRoundTrip | src/lib/output.cpp:21 | in the row `a,b` the comma sits right after the digits of a, and the two digit strings read back as a and b |
| Text.ReadSingle | src/lib/output.cpp:72 | a single printed count reads back as the one-field row [count] |
| Text.ReadRowRoundTrip | src/lib/output.cpp:21 | splitting the row `a,b` at commas and reading each field gives [a, b] |
| Text.HeaderAndPairReadsBack | src/lib/output.cpp:29-32 | the two-line report of both frameshift writers (also src/lib/output.cpp:78-81) is the header and a row that reads back as the pair |
| Text.ReadRow3RoundTrip | src/lib/output.cpp:41 | the row `a,b,c` reads back as [a, b, c] |
| Text.RowInjective | src/lib/output.cpp:21 | two pairs that print the same row are equal |
| Tally.SumOfHistogram | src/lib/gap.cpp:92 | the entries of a histogram of values all below its size sum to the number of values |
| Tally.OccPositive | src/lib/gap.cpp:128 | a value that occurs among the tallied values has a positive count |
| Tally.HistogramAdd | src/lib/gap.cpp:92 | adding the tallies of further values to a histogram gives the histogram of all values together |
| Structs.Size | src/include/algas/structs.hpp:30-45 | `size()` fails with invalid_argument exactly when names and seqs differ in number, and otherwise returns their common count |
| Structs.MaxLength | src/include/algas/structs.hpp:49-55 | the longest-length search over a non-empty list is at least every length and equal to one of them |
| Structs.MaxLen | src/include/algas/structs.hpp:49-55 | `len()` over a non-empty seqs is at least every `len(i)` and equal to one of them |
| Stream.OutStream.WriteLine | src/lib/output.cpp:88 | writing one line with its end-of-line appends exactly that line to the stream |
| Fasta.Parse | src/lib/fasta.cpp:31-57 | the result keeps the path, always holds at least one sequence, and its last sequence is the content pending when the input ends |
| Fasta.ReadFasta | src/lib/fasta.cpp:10-58 | the line loop produces exactly Parse of the lines |
| Fasta.SkippedLineIgnored | src/lib/fasta.cpp:34-39 | inserting an empty line or a `;` comment line anywhere leaves the result unchanged |
| Fasta.ParseNames | src/lib/fasta.cpp:40-47 | the names are the header lines without their `>`, in input order, empty names included |
| Fasta.ParseNoWhitespace | src/lib/fasta.cpp:51-53 | no stored sequence contains a whitespace character |
| Fasta.ParseHeaderless | src/lib/fasta.cpp:51-55 | input without a header gives no names and exactly one sequence, the concatenated content |
| Fasta.ParseRecords | src/lib/fasta.cpp:31-55 | parsing the rendering of named records after a headerless preamble gives back their names and their contents: the parser inverts the record layout |
| Fasta.ParseOneRecord | src/lib/fasta.cpp:40-55 | one named record after a headerless preamble parses to its name and content |
| Fasta.ParseTwoRecords | src/lib/fasta.cpp:40-55 | two named records parse to both names and both contents in order |
| Fasta.ReadTwoRecords | src/lib/fasta.cpp:78-83 | a comment, two headers, a blank line between header and content and a trailing blank line give two names and two contents, for any plain contents |
| Fasta.ReadExampleTwoRecords | src/lib/fasta.cpp:78-83 | the doctest input gives names 1, 2 and sequences CTCTGGATAGTC, CTATAGTC |
| Fasta.ContentOfTwoLines | src/lib/fasta.cpp:51-53 | two content lines concatenate into one sequence |
| Fasta.ReadMultiLine | src/lib/fasta.cpp:90-95 | a record spread over two lines parses to one sequence, the concatenation |
| Fasta.ReadExampleMultiLine | src/lib/fasta.cpp:90-95 | the doctest input gives name 1 and sequence NTNTGGATAGTCACGTACGTACGT |
| Fasta.ReadBlankLines | src/lib/fasta.cpp:97-103 | blank lines between a header and its content do not split the record |
| Fasta.ReadExampleBlankLines | src/lib/fasta.cpp:97-103 | the doctest input gives names nombre, name2 and sequences NTNTGGATAGTC, AACG |
| Fasta.ReadEmptyNameDropsContent | src/lib/fasta.cpp:40-47 | after a bare `>` header the empty name is kept but its content is never pushed, so `size()` then fails |
| Fasta.ReadOneRecord | src/lib/fasta.cpp:40-55 | `>name` followed by content parses to that single record |
| Fasta.ReadPlainRecords | src/lib/fasta.cpp:40-55 | two header/content pairs parse to both records in order |
| Fasta.ReadTrailingHeader | src/lib/fasta.cpp:55 | a trailing header with no content still gets an empty sequence |
| Gap.FindGap | src/lib/gap.cpp:81 | `find(GAP, i)` is the first gap at or after i, or the end (npos) when there is none |
| Gap.RunLength | src/lib/gap.cpp:83-91 | the run counted from p is all gaps and is maximal: it ends at the end of the sequence or before a non-gap |
| Gap.RunStartsExact | src/lib/gap.cpp:81-95 | the listed run starts are exactly the positions where a maximal run of gaps begins, in increasing order |
| Gap.RunLengthsOfSequence | src/lib/gap.cpp:80-95 | a sequence gives one positive length per gap run, and no length at all exactly when it holds no gap |
| Gap.WalkRun | src/lib/gap.cpp:83-91 | the inner loop counts the full length of the run, including a run that reaches the end of the sequence |
| Gap.CountRuns | src/lib/gap.cpp:81-95 | scanning one sequence adds exactly one count at each of its run lengths to the histogram |
| Gap.CountFile | src/lib/gap.cpp:80-96 | scanning a file adds the run lengths of all its sequences |
| Gap.Count | src/lib/gap.cpp:63-100 | the histogram has the size of the longest sequence seen, and entry L is the number of gap runs of length L over all files |
| Gap.RunsFitExactly | src/lib/gap.cpp:75-92 | `counts[lcount]` stays in bounds exactly when no all-gap sequence is as long as the histogram at that file |
| Gap.Frameshift | src/lib/gap.cpp:142-154 | the second value is the sum of all counts, the first the sum of counts at lengths not divisible by 3, and first is at most second |
| Gap.OccShifting | src/lib/gap.cpp:147-148 | a length counts as frameshifting exactly when it is not a multiple of 3 |
| Gap.ShiftingSplit | src/lib/gap.cpp:145-149 | every run is either frameshifting or in frame |
| Gap.FrameshiftOfHistogram | src/lib/gap.cpp:142-154 | on a length histogram the total is the number of runs, the first value the number of frameshifting runs, and the two differ by the in-frame runs |
| Gap.SkipRun | src/lib/gap.cpp:130-132 | the skip loop stops at the end of the run |
| Gap.PositionRuns | src/lib/gap.cpp:125-135 | scanning one sequence fails exactly when it ends in a gap, and otherwise adds one count per run start at bucket `pos / length` |
| Gap.PositionFile | src/lib/gap.cpp:124-136 | a file fails exactly when one of its sequences ends in a gap, and otherwise adds the buckets of all its sequences |
| Gap.Position | src/lib/gap.cpp:113-140 | out_of_range exactly when some sequence ends in a gap; otherwise a 101-bucket histogram of the run-start buckets |
| Gap.PositionOnlyBucketZero | src/lib/gap.cpp:128 | every run start lands in bucket 0, which holds the number of runs, and buckets 1 to 100 stay 0 |
| Gap.PositionFailsOnTrailingRun | src/lib/gap.cpp:130-132 | `AC-` has a run that `count` measures but `position` rejects |
| Gap.PositionBucketExample | src/lib/gap.cpp:128 | the run in `A-C` is reported in bucket 0 as written, and in bucket 50 with the relative position |
| Gap.Percent | src/lib/gap.cpp:115-128 | the relative position of a character, in percent of the last index, lies in the 0 to 100 range of the histogram; the first character maps to 0 and the last to 100 |
| Gap.PercentBounds | src/lib/gap.cpp:115-128 | truncated `p * 100 / d` for `p <= d` lies between 0 and 100, with 0 at `p = 0` and 100 at `p = d` |
| Gap.PercentBuckets | src/lib/gap.cpp:128 | one relative-position bucket per run start, each within the 101 buckets |
| Gap.PositionFixedRuns | src/lib/gap.cpp:125-135 | the corrected scan adds one count per run start at its percentage bucket, trailing runs included |
| Gap.PositionFixed | src/lib/gap.cpp:113-140 | the corrected position is a 101-bucket histogram of the percentage buckets of all run starts |
| Gap.PositionFixedCountsEveryRun | src/lib/gap.cpp:113-140 | the corrected histogram counts every gap run once, and bucket 100 is not empty when some sequence has a run starting at its last character |
| Gap.LastRunInLastBucket | src/lib/gap.cpp:115-128 | a run starting at the last character of a sequence is filed under bucket 100 |
| Gap.FileGatherHas | src/lib/gap.cpp:120-138 | a bucket produced for one sequence of a file is among the file's buckets |
| Gap.GatherHas | src/lib/gap.cpp:117-138 | a bucket produced for one sequence of one file is among the buckets of all files |
| Gap.PhaseSkip | src/lib/gap.cpp:171-173 | the do-while moves at least one place, passes only gaps from two places on, and stops before a non-gap or the end |
| Gap.PhaseRuns | src/lib/gap.cpp:167-176 | scanning one sequence adds one count at `p % 3` for each start p the loop records |
| Gap.Phase | src/lib/gap.cpp:156-179 | the raw phase counts are the 3-bucket histogram of the residues of the recorded starts of all sequences |
| Gap.PhaseSumIsRecordedStarts | src/lib/gap.cpp:166-176 | the three raw counts sum to the number of recorded starts |
| Gap.RecordedSpacing | src/lib/gap.cpp:171-175 | every recorded start is a run start, and two recorded starts are at least 3 apart |
| Gap.LongRunBlocks | src/lib/gap.cpp:171-173 | a run of length 2 or more leaves no run start two places after its start |
| Gap.PhaseRecordsAllLongRuns | src/lib/gap.cpp:166-176 | when every run has length 2 or more, the loop records exactly the run starts |
| Gap.PhaseSkipsRun | src/lib/gap.cpp:171-175 | `-A-` has run starts 0 and 2, but the loop records only 0 |
| Gap.PhaseFixedRuns | src/lib/gap.cpp:167-176 | the corrected scan adds one count at `p % 3` for every run start p |
| Gap.PhaseFixed | src/lib/gap.cpp:156-179 | the corrected raw phase counts are the 3-bucket histogram of the residues of all run starts |
| Gap.PhaseFixedCountsEveryRun | src/lib/gap.cpp:156-179 | the corrected counts sum to the number of gap runs |
| Sequence.RemoveGapsNoGap | src/lib/sequence.cpp:28-31 | after removal no gap is left, and a sequence without gaps is unchanged |
| Sequence.RemoveGapsKeepsOthers | src/lib/sequence.cpp:28-31 | removal keeps every other character as often as before |
| Sequence.RemoveGapsAppend | src/lib/sequence.cpp:28-31 | removal works piece by piece and keeps the order |
| Sequence.RemoveOneGap | src/lib/sequence.cpp:28-31 | a single gap between gap-free parts is removed and the parts are joined |
| Sequence.RemoveGapsExample | src/lib/sequence.cpp:28-31 | `T-AACCC` becomes `TAACCC` |
| Sequence.TrimToCodons | src/lib/sequence.cpp:33-39 | the trimmed text is a prefix whose length is a multiple of 3; the empty string stays empty; otherwise 1 to 3 characters go, 3 exactly when the length was already a multiple of 3 |
| Sequence.TrimDropsLastCodon | src/lib/sequence.cpp:35-36 | a whole number of codons loses its last codon |
| Sequence.TrimExamples | src/lib/sequence.cpp:33-39 | the lengths 12, 9, 6 and 7 lose 3, 3, 3 and 1 characters |
| Sequence.StopsIn | src/lib/sequence.cpp:43-51 | the codon scan finds at most one stop codon per whole codon |
| Sequence.StopsAppend | src/lib/sequence.cpp:43-51 | codons are tested without overlap at offsets 0, 3, 6 and so on, so the count splits at any codon boundary |
| Sequence.StopStartsWithT | src/lib/sequence.cpp:12 | every stop codon (TAA, TAG, TGA) starts with T |
| Sequence.LastCodonIgnored | src/lib/sequence.cpp:33-51 | the last whole codon is never tested, stop codon or not |
| Sequence.CodonExamples | src/lib/sequence.cpp:43-51 | sample trimmed sequences hold 1, 0, 1 and 0 stop codons |
| Sequence.StopExamples | src/lib/sequence.cpp:28-51 | `AAATAAAAATAG` counts 1 because its final TAG is dropped; `CTAAGGCCC` counts 0 |
| Sequence.GapExamples | src/lib/sequence.cpp:28-51 | `T-AACCC` counts 1 with gaps discarded and 0 with gaps kept |
| Sequence.SeqRows | src/lib/sequence.cpp:54-58 | one row per sequence |
| Sequence.ScanSequence | src/lib/sequence.cpp:43-51 | all three counters grow by the number of stop codons of the sequence |
| Sequence.ScanFile | src/lib/sequence.cpp:25-59 | the total and file counters grow by the stops of the whole file; at sequence detail, one row per sequence is appended and the sequence counter ends at 0 |
| Sequence.StopCodons | src/lib/sequence.cpp:14-64 | the total is the number of stop codons over all files; file detail gives one (path, count) row per file, sequence detail one `path,name,count` row per sequence, and the other lists stay empty |
| Sequence.TotalIsSumOfSequences | src/lib/sequence.cpp:47 | the total equals the stop count of all sequences of all files taken together |
| Sequence.FileRowsSumToTotal | src/lib/sequence.cpp:60-63 | the per-file counts, reset after each file, add up to the total |
| Sequence.AllSeqRowsCount | src/lib/sequence.cpp:54-58 | sequence detail writes exactly one row per sequence |
| Sequence.OffFrame | src/lib/sequence.cpp:88-92 | the count is at most the number of sequences, and 0 exactly when every length is a multiple of 3 |
| Sequence.LengthFrameshifts | src/lib/sequence.cpp:82-93 | the loop counts the sequences of all files whose length is not a multiple of 3 |
| Sequence.FilesOffFrameBounds | src/lib/sequence.cpp:82-93 | that count is at most the number of sequences, and 0 exactly when every length is a multiple of 3 |
| Sequence.AmbiguousIn | src/lib/sequence.cpp:114-117 | at most one per character, and 0 exactly when the sequence holds no ambiguity code |
| Sequence.Ambiguous | src/lib/sequence.cpp:106-121 | the loop returns the number of ambiguity codes over all sequences of all files |
| Sequence.AmbiguousAppend | src/lib/sequence.cpp:113-118 | the count of a concatenation is the sum of the counts |
| Sequence.PlainNotAmbiguous | src/lib/sequence.cpp:108 | A, C, G, T, their lower-case forms and `-` are not ambiguity codes |
| Sequence.PlainBasesNeverCount | src/lib/sequence.cpp:108-117 | a sequence of plain bases and gaps counts 0 |
| Sequence.AmbiguousEitherCase | src/lib/sequence.cpp:108 | a lower-case letter is an ambiguity code exactly when its upper-case form is |
| Sequence.AllAmbiguousCount | src/lib/sequence.cpp:114-117 | a sequence of ambiguity codes counts its full length |
| Sequence.AmbiguousPlainExamples | src/lib/sequence.cpp:154-157 | the two plain test sequences count 0 |
| Sequence.AmbiguousExampleN | src/lib/sequence.cpp:158-161 | `AAANNAAAAA` counts 2 |
| Sequence.AmbiguousExampleWY | src/lib/sequence.cpp:158-161 | `CCWCCCYCC` counts 2 |
| Sequence.AmbiguousExampleLower1 | src/lib/sequence.cpp:162-166 | `nannwwyccgtwrk` counts 9 |
| Sequence.AmbiguousExampleLower2 | src/lib/sequence.cpp:162-166 | `baaandnnhwk` counts 8 |
| Sequence.AmbiguousTestNone | src/lib/sequence.cpp:154-157 | the parsed test file counts 0 |
| Sequence.AmbiguousTestUpper | src/lib/sequence.cpp:158-161 | the parsed test file counts 4 |
| Sequence.ParseTestLower | src/lib/sequence.cpp:162-165 | the two lower-case test files, with the empty last line `getline` returns after a final newline, parse to the sequences the count sees; `>2cccccacacagt` is a header, so its sequence is empty |
| Sequence.LowerCaseSequencesCount | src/lib/sequence.cpp:162-166 | the sequences of the two lower-case test files, `nannwwyccgtwrk` and `baaandnnhwk` plus an empty one, hold 17 ambiguity codes |
| Sequence.AmbiguousTestLower | src/lib/sequence.cpp:162-166 | the two parsed lower-case test files count 17 together |
| Utils.FirstColon | src/lib/utils.cpp:15 | `find_first_of(':')` is the first colon, or the end when there is none |
| Utils.FirstColonAfter | src/lib/utils.cpp:15 | in `a:b` with no colon in a, the first colon is right after a |
| Utils.Extension | src/lib/utils.cpp:21-22 | the extension is empty or a dot-led suffix of the path with no further dot and no directory separator |
| Utils.ExtractFileType | src/lib/utils.cpp:8-23 | with a first colon past index 1 the type is `.` plus at least two colon-free characters, and type name, colon and path put back together give the trimmed input, so the split is at the first colon; otherwise the path is the trimmed input and the type is its extension |
| Utils.ExtractTrimsFirst | src/lib/utils.cpp:12 | surrounding whitespace has no effect on the result |
| Utils.ColonNearStartIsPath | src/lib/utils.cpp:16 | a colon at index 0 or 1 (a drive letter such as `C:x`) is part of the path |
| Utils.ExtractTyped | src/lib/utils.cpp:15-19 | `ext:p` with a colon-free ext of two or more characters splits into path p and type `.ext` |
| Utils.ExtractUntyped | src/lib/utils.cpp:21-22 | a trimmed path without a type prefix is returned unchanged with its extension |
| Utils.ExtensionOfName | src/lib/utils.cpp:21-22 | the extension of `dir/stem.ext` is `.ext` |
| Utils.HiddenFileHasNoExtension | src/lib/utils.cpp:21-22 | a file name whose only dot leads it has no extension |
| Utils.WriteHistogram | src/lib/utils.cpp:25-41 | the lines written are `0,1` for an empty or all-zero histogram and otherwise the non-zero rows; the status is always EXIT_SUCCESS |
| Utils.NonZeroRowsExact | src/lib/utils.cpp:34-39 | a row `a,b` is written exactly when entry a is b and b is not zero |
| Utils.NonZeroRowsAscending | src/lib/utils.cpp:35-39 | rows come in ascending index order |
| Utils.HistogramReadsBack | src/lib/utils.cpp:25-41 | all-zero input prints only `0,1`; otherwise `a,b` is printed exactly when counts[a] = b > 0 |
| Utils.HistogramExamples | src/lib/utils.cpp:25-41 | empty and all-zero inputs print `0,1`; [0,3,0,1] prints `1,3` and `3,1` |
| GapOutput.Frequency | src/lib/output.cpp:12-24 | the writer appends the header, then `0,0` for no counts or one row per pair |
| GapOutput.PairRowsReadBack | src/lib/output.cpp:20-22 | one row per pair, in order, each reading back as the pair |
| GapOutput.FrequencyReadsBack | src/lib/output.cpp:12-24 | the header comes first; no counts give exactly `0,0`; otherwise line k+1 reads back as pair k |
| GapOutput.FrequencyTest | src/lib/output.cpp:109-119 | the doctest counts give the header and rows 1,5 2,4 3,3 4,2 6,1 |
| GapOutput.FrequencyEmptyTest | src/lib/output.cpp:120-128 | no counts give the header and `0,0` |
| GapOutput.Frameshift | src/lib/output.cpp:29-32 | the writer appends the header and one row |
| GapOutput.FrameshiftTest | src/lib/output.cpp:129-138 | (10, 30) gives the header and `10,30` |
| GapOutput.Phase | src/lib/output.cpp:37-43 | the writer appends the header and one row per file |
| GapOutput.PhaseReadsBack | src/lib/output.cpp:37-43 | one line per file after the header, each reading back as that file's first three counts |
| GapOutput.PhaseTestSingle | src/lib/output.cpp:139-148 | one file gives the header and `30,20,10` |
| GapOutput.PhaseTestMultiple | src/lib/output.cpp:149-158 | two files give the header, `30,20,10` and `50,20,30` |
| GapOutput.Position | src/lib/output.cpp:48-61 | the writer appends the header, then `0,0` for all zero, or rows for indexes 1 to size-1 |
| GapOutput.PositionRowsReadBack | src/lib/output.cpp:57-59 | rows for i from 1, zeros included, each reading back as (i, positions[i]) |
| GapOutput.PositionReadsBack | src/lib/output.cpp:48-61 | the header first; all zero gives exactly `0,0`; otherwise line i reads back as (i, positions[i]) and index 0 is never printed |
| GapOutput.PositionAllZeroTest | src/lib/output.cpp:273-281 | 101 zero buckets give the header and `0,0` |
| GapOutput.PositionTest | src/lib/output.cpp:159-272 | the doctest buckets give 101 lines, starting with the header, `1,2` and `2,1`, with `10,4` at line 10 and `100,0` last |
| SeqOutput.Ambiguous | src/lib/output.cpp:70-73 | the writer appends the header and the count |
| SeqOutput.AmbiguousReadsBack | src/lib/output.cpp:70-73 | two lines, the second reading back as the count |
| SeqOutput.AmbiguousTest | src/lib/output.cpp:282-290 | 10 gives `ambiguous_nucleotides` and `10` |
| SeqOutput.Frameshift | src/lib/output.cpp:78-81 | the writer appends the header and one row |
| SeqOutput.FrameshiftTest | src/lib/output.cpp:291-299 | (9, 25) gives `frameshifts,total` and `9,25` |
| SeqOutput.StopCodons | src/lib/output.cpp:86-90 | the writer echoes each row as one line, in order |
| SeqOutput.Subst | src/lib/output.cpp:92-95 | the writer appends the header and one row of the first three counts |
| SeqOutput.SubstReadsBack | src/lib/output.cpp:92-95 | two lines, the second reading back as the first three counts |

`Structs.Len` models `len(index)` (src/include/algas/structs.hpp:48) as a plain accessor; `Structs.MaxLen` states its contract through it.

## Left out

- Input and output. Opening files, choosing standard input for `-` and the invalid_argument on an unopenable file (src/lib/fasta.cpp:14-29) are not modelled. `Fasta.ReadFasta` takes the lines `getline` would return. The scanners take already-parsed files. The writers extend `OutStream.lines` instead of a `std::ostream`.
- The float normalisation of `phase` (src/lib/gap.cpp:158, 180-185). It divides by a float total, which is zero when there are no gaps. `Gap.Phase` returns the raw integer counts. The counters themselves are `std::vector<float>`, so `phase[pos % 3]++` stops growing at 2^24 per bucket; the `nat` counters of `Gap.Phase` and `Gap.PhaseRuns` do not reproduce that.
- Command-line dispatch and console printing: `gap()` (src/lib/gap.cpp:10-48), the printing switch and return codes of `sequence()` (src/lib/sequence.cpp:65-79, 94-103), and src/sasi.cpp, salsa.cpp and algas.cpp. The `total count` line and the per-file `path,count` lines are returned as data by `Sequence.StopCodons`, not printed.
- Gap.Count: models the histogram resize on its size. The source tests `capacity()`, which may exceed the size, and then `counts[lcount]` may land in reserved but unsized storage.
- Gap.Count: requires that every run length fits the histogram (`RunsFit`). Without it `counts[lcount]++` writes past the end, which is undefined behaviour. `Gap.RunsFitExactly` states when this holds.
- Gap.Count, Gap.CountFile and Gap.RunsFitExactly: require every file to hold at least one sequence (`NonEmptyFiles`), because `data.len()` dereferences `max_element` over the sequences, which is undefined on an empty list. Every file read by `Fasta.Parse` has at least one sequence, since the last content is always pushed.
- Utils.Extension: a simplified `std::filesystem::path::extension` on `/`-separated paths, with no root names or other separators.
- Sequence.StopCodons: requires, at sequence detail, that every file has at least as many names as sequences (`Named`). Otherwise `data.names[i]` reads past the end.
- GapOutput.Phase and SeqOutput.Subst: require three entries per row, because the source reads `[0]`, `[1]` and `[2]` unchecked.
- Structs.MaxLen: requires a non-empty list of sequences, because `max_element` over an empty range is dereferenced.
- `data_t`'s constructor is the `Data` datatype constructor. It stores its arguments unchanged, so it has no member of its own; its defaulted arguments are written `Data(p, [], [])`.
- Loop factoring. The bodies of some nested loops are separate methods: `Gap.WalkRun`, `Gap.SkipRun`, `Gap.PhaseSkip`, `Gap.PercentStep`, `Sequence.ScanNextSequence`, `Sequence.ScanNextFile`. Their order of effects is that of the source.
- No `extract_file_type` examples on literal paths: the source has no tests for it, and the general lemmas `Utils.ExtractTyped`, `Utils.ExtractUntyped` and `Utils.ExtensionOfName` cover the cases.
- GapOutput.PositionTest: checks the line count and lines 0, 1, 2, 10 and 100 of the 101-line doctest, not all 101.
- `size_t` wrap-around is not modelled. The counters are unbounded.
- Strings are sequences of characters, while `std::string` counts bytes. Lengths, codon splits and `isspace` therefore agree with the source on ASCII input only. `Text.IsSpace` is the ASCII whitespace set of the "C" locale.

## Findings

| source | as written | input that shows it | evidently intended | confidence | as-written member | corrected member |
|---|---|---|---|---|---|---|
| src/lib/gap.cpp:171-175 | after recording a start p, the do-while steps to p+1 and keeps going while p+2 is a gap, then searches from two places on; a run start two places after a recorded start whose run has length 1 is skipped | `-A-`: runs start at 0 and 2, only 0 is counted | one phase count per gap run | not executed | Gap.PhaseSkipsRun, Gap.Phase | Gap.PhaseFixed, Gap.PhaseFixedCountsEveryRun |
| src/lib/gap.cpp:130-132 | the skip loop reads `seq.at(pos)` with no end check | `AC-`: the trailing run moves pos to 3 and `at(3)` throws out_of_range | count a trailing run like `count` does (src/lib/gap.cpp:88-90) | not executed | Gap.PositionFailsOnTrailingRun, Gap.Position | Gap.PositionFixed |
| src/lib/gap.cpp:128 | the bucket is `pos / seq.length()`, integer division of a smaller by a larger number, so always 0 | `A-C`: the run at 1 goes to bucket 0 | the bucket is the relative position in percent, `pos * 100 / (length - 1)` truncated, with bucket 0 for a one-character sequence, so the first and last characters map to buckets 0 and 100 of the 0-100 range in the comment at src/lib/gap.cpp:115-116 | not executed | Gap.PositionOnlyBucketZero, Gap.PositionBucketExample | Gap.PositionFixed, Gap.PositionFixedCountsEveryRun |
