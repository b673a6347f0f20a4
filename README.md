# QuasR counting engines in Dafny

This project models the three per-alignment counting engines of the QuasR
package and proves what they count. Each engine takes the alignment records
that a BAM fetch hands to its callback one at a time. Each record has a
0-based start, CIGAR operations, strand and pairing flags, MAPQ, an optional
XV allele tag and 4-bit base codes. The engine turns every record into
increments of position-indexed arrays or string-keyed maps, then assembles
the result.

- **Splice junctions** (`count_junctions.cpp`, module `Junctions`).
  - `_addJunction` keeps a record whose MAPQ lies in `[mapqMin, mapqMax]`, dropping secondary records when asked.
  - It walks the CIGAR with a reference coordinate `x` and a read coordinate `y`.
  - Every `N` operation counts the key `chr:first:last:strand` in `junctionsU`. In allele mode the XV tag picks `junctionsU`, `junctionsR` or `junctionsA` instead.
  - `count_junctions` checks the MAPQ range and runs the callback over every region.
  - It then returns a named count vector, or in allele mode the sorted union of the three maps' keys with one count column per map.
- **Bisulfite methylation, allele-specific methylation and SNV detection** (`quantify_methylation.cpp`).
  - **Modules:**
    - `Targets` holds the target masks, the padding arithmetic and the report order, shared by the three.
    - `Methylation`, `MethylationAllele` and `Snv` model the three drivers.
  - **Target masks:** a driver marks target positions of the reference string in masks padded by `MAX_READ_LENGTH` (500) on either side:
    - mode 2 marks every C and G;
    - modes 0 and 1 mark every CpG;
    - `detect_SNVs` always marks every CpG.
  - **Counting:** the callbacks count bases of ungapped reads at marked positions:
    - `addHitToCounts` counts C/T (plus strand) and G/A (minus strand);
    - `addHitToCountsAllele` does the same, once per allele;
    - `addHitToSNP` counts a reference match on the strand the conversion leaves alone.
  - **Report:** the report loop emits one row per marked position. It drops zero-coverage rows unless `returnZero` is set. Mode 0 merges the C of a CpG with its G.
- **Nucleotide alignment frequencies** (`nucleotide_alignment_frequencies.c`, module `Frequencies`). For every record that lies wholly inside the reference window, the callback:
  - adds each aligned base to a cycle × read base × reference base matrix, stored flat as `ref + 5*read + 25*cycle`, with the cycle mirrored for reverse reads;
  - adds read-1 insert sizes to a saturating histogram;
  - tracks the longest query length;
  - records `pos_isize` keys up to a chunk size.

  The driver counts the distinct keys into a two-slot uniqueness accumulator.

Modules `Bam` (records, CIGAR lengths, `bam_calend`) and `Text` (decimal
formatting, `std::string` order, sorted-set insertion) hold what the engines
share.

**Form of the model.**
- Imperative code stays imperative:
  - the callbacks are methods of classes whose fields are the counter arrays or junction maps;
  - masks and counters are `array`s;
  - the loops carry invariants.
- Every method is proved against a function of the records counted so far (`Tally`, `SpliceIds`, `BumpAll`, `Cells`, `Run`).
- The report loops are proved against functions over the final arrays (`ReportSites`, `SnvSites`).
- The lemmas below state what those functions mean in the source's terms.

## Model

| member | source | states |
|---|---|---|
| Junctions.WalkAdvances | src/count_junctions.cpp:89-120 | after the CIGAR loop, `x` has moved from the record start by the M/=/X/N/D lengths and `y` by the M/=/X/I/S lengths |
| Junctions.JunctionIdInjective | src/count_junctions.cpp:100 | for one target name, the `"%s:%i:%i:%c"` key determines the junction's first base, last base and strand, so two different junctions of one chromosome never share a count |
| Junctions.SpliceIdsCount | src/count_junctions.cpp:90-120 | a walk emits exactly one key per `N` operation |
| Junctions.SpliceIdsSpec | src/count_junctions.cpp:90-120 | a key is emitted by a record iff some `N` operation, at the reference coordinate the walk has reached, emits it |
| Junctions.ScenarioSingleJunction | src/count_junctions.cpp:89-110 | a forward record at 0-based 100 with CIGAR 5M10N5M on chr1 yields exactly the key `chr1:106:115:+` |
| Junctions.BumpCounts | src/count_junctions.cpp:103-109 | counting a key inserts it with 1 when absent or adds exactly 1; no other key changes |
| Junctions.BumpAllCounts | src/count_junctions.cpp:103-109 | counting a list of keys gives every key exactly its number of occurrences on top of its old count, and adds exactly the listed keys |
| Junctions.BumpAllOrderInvariant | src/count_junctions.cpp:103-109 | two key sequences with the same multiset of keys leave the same final map: only how often each key was counted matters, not the order of the keys |
| Junctions.CountedKeys | src/count_junctions.cpp:103-109 | a map counted from empty holds exactly the counted keys, each with its multiplicity |
| Junctions.JunctionCounter.constructor | src/count_junctions.cpp:177-187 | the three maps start empty and the filter settings are stored |
| Junctions.JunctionCounter.CountKey | src/count_junctions.cpp:103-109 | the find/insert/++ increments one key of the selected map and leaves the other maps alone |
| Junctions.JunctionCounter.WalkOp | src/count_junctions.cpp:92-119 | one loop iteration advances `(x, y)` as its branch says and counts the operation's key, if any, in the selected map only |
| Junctions.JunctionCounter.WalkStep | src/count_junctions.cpp:90-120 | after operation `i`, the coordinates equal the walk of the first `i+1` operations and the map holds their keys |
| Junctions.JunctionCounter.WalkHit | src/count_junctions.cpp:89-120 | the CIGAR loop counts every splice key of the record in the selected map and changes no other map |
| Junctions.JunctionCounter.AddJunction | src/count_junctions.cpp:39-123 | it fails exactly for a record that passes the MAPQ and secondary filters but has a missing or invalid XV tag in allele mode, with the source's message (the missing-tag message, or `'c' is not a valid XV tag value; …` naming the tag character `c`); a record outside the MAPQ range, or a skipped secondary, leaves every map unchanged; otherwise its keys go to the map its tag selects (junctionsU without allele mode) |
| Junctions.JunctionCounter.FetchRegion | src/count_junctions.cpp:194-203 | with the region's target name set, the callback over the region's records adds exactly their routed keys, unless a record's tag is invalid |
| Junctions.JunctionCounter.FetchAll | src/count_junctions.cpp:193-203 | the region loop succeeds iff every counted record is routable, and each map then holds the keys routed to it from every region |
| Junctions.InsertKeys | src/count_junctions.cpp:215-221 | `set<string>::insert` over a map's keys keeps the key list sorted and holds exactly the old keys and the map's keys |
| Junctions.AssembleAllelic | src/count_junctions.cpp:212-246 | the allele result lists the union of the three maps' keys once each, in sorted order, with each column holding that map's count, 0 where the key is missing |
| Junctions.AssemblePlain | src/count_junctions.cpp:263-276 | the plain result lists each key of junctionsU once, in map order, with its count |
| Junctions.MapqError | src/count_junctions.cpp:152-157 | the MAPQ arguments are rejected iff they are not `0 <= mapqMin <= mapqMax <= 255` |
| Junctions.Tabulate | src/count_junctions.cpp:177-276 | with a valid range, the result is an error iff allele mode meets an unroutable record; otherwise it is the plain or allele table of all routed keys |
| Junctions.CountJunctions | src/count_junctions.cpp:138-279 | an invalid MAPQ range is an error; a valid one gives the table of every record's splice keys, routed by tag in allele mode, or the XV error |
| Junctions.NonAllelicRoutable | src/count_junctions.cpp:65-66 | without allele mode no record can raise the XV error |
| Junctions.HitSumsToPlain | src/count_junctions.cpp:65-86 | a counted record with a valid tag sends its keys to exactly one of the three maps |
| Junctions.RoutedIdsPermutation | src/count_junctions.cpp:65-120 | two orderings of the same records of a region (equal multisets of records) contribute the same multiset of keys to each map |
| Junctions.RecordOrderInvariant | src/count_junctions.cpp:39-123 | the maps a region's records leave behind do not depend on the order `bam_fetch` delivers them in |
| Junctions.RoutedSumsToPlain | src/count_junctions.cpp:65-86 | for one region, the three allele maps' key counts add up to the counts without allele mode |
| Junctions.AllelicSumsToPlain | src/count_junctions.cpp:65-86 | over all regions, the three allele-stratified counts of every key add up to its count without allele mode |
| Text.NatToStringDigits | src/count_junctions.cpp:100 | `%i` of a coordinate is a non-empty string of decimal digits without a leading zero |
| Text.NatToStringInjective | src/count_junctions.cpp:100 | the `%i` rendering of a non-negative coordinate is injective: different coordinates print differently |
| Text.Insert | src/count_junctions.cpp:215-221 | inserting into a sorted key list keeps it sorted, adds exactly the key, and changes nothing when the key is present |
| Text.SortedDistinct | src/count_junctions.cpp:215-221 | a sorted key list (set order) holds no key twice |
| Text.LessTotal | src/count_junctions.cpp:215-221 | `std::string` order puts any two different keys one before the other |
| Targets.LeftExtension | src/quantify_methylation.cpp:241 | `leftextension` is `min(start, MAX_READ_LENGTH)`, so never more than `start` or 500 |
| Targets.Offset | src/quantify_methylation.cpp:249 | `offset + leftextension == start`, and the offset is 0 for regions starting within the first 500 bases |
| Targets.MarksDisjoint | src/quantify_methylation.cpp:252-273 | no array index is marked for both the plus and the minus strand |
| Targets.MarkOutput | src/quantify_methylation.cpp:251-279 | an unknown mode is an error with the message `unknown mode '<mode>', should be one of 0, 1, or 2.`; otherwise mode 2 marks every C/c (plus) and every G/g (minus), and modes 0/1 mark the C and the G of every CpG (case-insensitive), each at string index + leftextension; the result is `nOutput` |
| Targets.NewMasks | src/quantify_methylation.cpp:237-279 | fresh masks of `seqlen + 2*MAX_READ_LENGTH` entries hold exactly those marks, or the mode error |
| Targets.RowCountIsNOutput | src/quantify_methylation.cpp:252-274 | with `returnZero`, the report has exactly `nOutput` rows in every mode: marked positions in modes 1/2, CpGs in mode 0 |
| Targets.SeparateCountC | src/quantify_methylation.cpp:252-263 | in mode 2 the report walks past one row per C and per G |
| Targets.SeparateCountCpG | src/quantify_methylation.cpp:265-274 | in mode 1 the report walks past two rows per CpG |
| Targets.CollapsedCountCpG | src/quantify_methylation.cpp:265-274 | in mode 0 the report walks past one row per CpG |
| Targets.DropZeroIsFilter | src/quantify_methylation.cpp:349-387 | the report without `returnZero` is the report with it, minus the rows with zero total |
| Targets.SeparateSitesMembers | src/quantify_methylation.cpp:356-373 | a (position, strand) is reported in modes 1/2 iff it is in the scanned range, marked for that strand and, without `returnZero`, covered on that strand |
| Targets.CollapsedSitesMembers | src/quantify_methylation.cpp:377-386 | a position is reported in mode 0 iff it is in range and marked plus and, without `returnZero`, its C or the following G is covered |
| Targets.SeparateSitesOrdered | src/quantify_methylation.cpp:356-373 | rows come by increasing position, a plus row before the minus row of the same position |
| Targets.CollapsedSitesOrdered | src/quantify_methylation.cpp:377-386 | mode-0 rows come by increasing position |
| Targets.PreCountStep | src/quantify_methylation.cpp:323-326 | the recount adds one per index that would yield a row, which is the number of rows that index yields unless it is marked on both strands |
| Methylation.TallyAppend | src/quantify_methylation.cpp:287-310 | counting two batches of records one after the other adds their counts |
| Methylation.TallyMethBounded | src/quantify_methylation.cpp:85-109 | at every position, methylated counts never exceed total counts, on either strand |
| Methylation.TallyStrands | src/quantify_methylation.cpp:83-110 | plus counters only ever count forward reads and minus counters only reverse reads; unmarked positions stay 0 |
| Methylation.MethCounters.constructor | src/quantify_methylation.cpp:232-249 | four zeroed counter arrays over the masks, no records counted |
| Methylation.MethCounters.AddHitToCounts | src/quantify_methylation.cpp:69-113 | the counters equal the tallies of the records counted so far, plus this one: a forward read adds to Tp, and to Mp as well when it reads C, at marked plus positions; a reverse read does the same for Tm/Mm with G and A; a record starting left of the offset counts nothing, as the wrapped unsigned index ends the loop at once |
| Methylation.MethCounters.CountPlusStrand | src/quantify_methylation.cpp:97-109 | every array index gains exactly the increment of the forward record there |
| Methylation.MethCounters.CountMinusStrand | src/quantify_methylation.cpp:83-95 | every array index gains exactly the increment of the reverse record there |
| Methylation.MethCounters.CountPlusAt | src/quantify_methylation.cpp:100-108 | one index gains C → Tp and Mp, T → Tp only, other bases nothing; no other index changes |
| Methylation.MethCounters.CountMinusAt | src/quantify_methylation.cpp:86-94 | one index gains G → Tm and Mm, A → Tm only, other bases nothing; no other index changes |
| Methylation.MethCounters.AddHits | src/quantify_methylation.cpp:304 | the fetch of one file counts each of its records in turn |
| Methylation.MethCounters.AddFiles | src/quantify_methylation.cpp:287-310 | the file loop counts the records of every file |
| Methylation.MethCounters.Tallies | src/quantify_methylation.cpp:69-113 | each counter array is the per-position tally of the records counted |
| Methylation.MethCounters.CountRows | src/quantify_methylation.cpp:316-335 | the recount without `returnZero` never exceeds the number of rows the report emits, and equals it in mode 0 or when no index is marked on both strands |
| Methylation.MethCounters.ReportSeparate | src/quantify_methylation.cpp:352-373 | modes 1/2 emit the plus then the minus row of each marked, kept position, with position `i + offset + 1` and that strand's T and M |
| Methylation.MethCounters.ReportCollapsed | src/quantify_methylation.cpp:375-386 | mode 0 emits one row per kept CpG with `T = Tp[i] + Tm[i+1]` and `M = Mp[i] + Mm[i+1]` |
| Methylation.MethCounters.Report | src/quantify_methylation.cpp:349-387 | the fill loop emits the rows of the report function |
| Methylation.CountRegion | src/quantify_methylation.cpp:232-310 | fresh counters over the masks hold the tallies of every record of every file |
| Methylation.ReportRegion | src/quantify_methylation.cpp:315-387 | recount and fill return exactly the methylation report of the counted records |
| Methylation.QuantifyMethylation | src/quantify_methylation.cpp:195-414 | an unknown mode is an error, with its message; otherwise the rows are the report of the marked targets over all records |
| Methylation.MethReportDropsZeroRows | src/quantify_methylation.cpp:316-386 | without `returnZero`, the rows are exactly the `returnZero` rows with a positive total, in the same order with unchanged values |
| Methylation.MethReportRowCount | src/quantify_methylation.cpp:252-274 | with `returnZero`, the number of rows is `nOutput` |
| Methylation.MethReportTargets | src/quantify_methylation.cpp:252-273 | every row sits on a target: position − start − 1 is a C (plus) or G (minus) in mode 2, the C or the G of a CpG in mode 1, a CpG's C in mode 0 |
| Methylation.MethReportBounded | src/quantify_methylation.cpp:361-383 | in every row, M ≤ T |
| Methylation.MethReportIncreasing | src/quantify_methylation.cpp:356-386 | row positions strictly increase in mode 0, and in modes 1/2 (where no position has both strands) |
| Methylation.ModeZeroSumsModeOne | src/quantify_methylation.cpp:352-386 | with `returnZero`, every mode-0 `'*'` row is the sum of the mode-1 `'+'` row at its position and the `'-'` row one base to the right, in both T and M; every mode-1 `'+'` row has its mode-0 row |
| MethylationAllele.AlleleFlagToInt | src/quantify_methylation.cpp:54-67 | 'R' → 0, 'A' → 2, every other character → 1, so the index is always in 0..2 |
| MethylationAllele.TallyRouted | src/quantify_methylation.cpp:155-193 | at each position, the R, U and A counters add up to the counter without allele split |
| MethylationAllele.TallySeqRouted | src/quantify_methylation.cpp:155-193 | the same, for whole counter arrays |
| MethylationAllele.AlleleCounters.constructor | src/quantify_methylation.cpp:594-630 | twelve zeroed counter arrays (three alleles × Tp, Mp, Tm, Mm) over shared masks |
| MethylationAllele.AlleleCounters.AddHitToCountsAllele | src/quantify_methylation.cpp:155-193 | a record is counted exactly as by `addHitToCounts`, in the counters of the allele its XV tag selects only |
| MethylationAllele.AlleleCounters.AddHits | src/quantify_methylation.cpp:686 | the fetch routes each record to its allele's counters |
| MethylationAllele.AlleleCounters.AddFiles | src/quantify_methylation.cpp:669-692 | the file loop routes the records of every file |
| MethylationAllele.AlleleCounters.CountRows | src/quantify_methylation.cpp:698-718 | the recount of positions with a positive R+U+A total never exceeds the allele report's row count, and equals it in mode 0 or when no index is marked on both strands |
| MethylationAllele.AlleleCounters.CountSeparate | src/quantify_methylation.cpp:702-709 | the recount in modes 1/2 never exceeds the number of separate-strand rows with positive R+U+A total, and equals it when no index is marked on both strands |
| MethylationAllele.AlleleCounters.PreCountAt | src/quantify_methylation.cpp:705-708 | one recount iteration keeps the count at most, and over disjoint masks exactly, the rows emitted so far |
| MethylationAllele.AlleleCounters.CountCollapsed | src/quantify_methylation.cpp:710-715 | the recount in mode 0 |
| MethylationAllele.AlleleCounters.ReportSeparate | src/quantify_methylation.cpp:741-770 | modes 1/2 emit plus then minus rows, with the R, U and A counts of each kept position |
| MethylationAllele.AlleleCounters.SeparateRowsAt | src/quantify_methylation.cpp:745-769 | one fill iteration in modes 1/2 |
| MethylationAllele.AlleleCounters.ReportCollapsed | src/quantify_methylation.cpp:772-789 | mode 0 emits one row per kept CpG with each allele's plus-at-i plus minus-at-i+1 counts |
| MethylationAllele.AlleleCounters.CollapsedRowAt | src/quantify_methylation.cpp:774-788 | one fill iteration in mode 0 |
| MethylationAllele.AlleleCounters.Report | src/quantify_methylation.cpp:738-790 | the fill loop emits the rows of the allele report |
| MethylationAllele.CountRegion | src/quantify_methylation.cpp:594-692 | each allele's counters hold the tallies of the records tagged with it |
| MethylationAllele.ReportRegion | src/quantify_methylation.cpp:697-790 | recount and fill return exactly the allele report |
| MethylationAllele.QuantifyMethylationAllele | src/quantify_methylation.cpp:558-833 | an unknown mode is an error, with its message; otherwise the rows are the allele report over all records |
| MethylationAllele.AlleleReportRefines | src/quantify_methylation.cpp:741-789 | the allele report has the rows of the plain report (same positions and strands), with R+U+A totals and methylated counts equal to its T and M |
| MethylationAllele.AlleleReportRowCount | src/quantify_methylation.cpp:633-655 | with `returnZero`, the allele report has `nOutput` rows |
| Snv.SnvTallyMatchBounded | src/quantify_methylation.cpp:128-148 | `match` never exceeds `total` at any position |
| Snv.SnvCounters.constructor | src/quantify_methylation.cpp:445-458 | zeroed `match` and `total` arrays over the target masks |
| Snv.SnvCounters.AddHitToSnp | src/quantify_methylation.cpp:116-152 | the counters equal the tallies of the records so far: a reverse read counts every base at a C target and matches only C; a forward read counts at G targets and matches only G; a record starting left of the offset counts nothing |
| Snv.SnvCounters.CountReverse | src/quantify_methylation.cpp:128-137 | every index gains exactly the reverse record's increment |
| Snv.SnvCounters.CountForward | src/quantify_methylation.cpp:139-148 | every index gains exactly the forward record's increment |
| Snv.SnvCounters.CountReverseAt | src/quantify_methylation.cpp:130-136 | one index: total +1 at a C target, match +1 only for a C; no other index changes |
| Snv.SnvCounters.CountForwardAt | src/quantify_methylation.cpp:141-147 | one index: total +1 at a G target, match +1 only for a G; no other index changes |
| Snv.SnvCounters.AddHits | src/quantify_methylation.cpp:489 | the fetch of one file counts each record |
| Snv.SnvCounters.AddFiles | src/quantify_methylation.cpp:473-495 | the file loop counts every file's records |
| Snv.SnvCounters.Tallies | src/quantify_methylation.cpp:116-152 | `total` and `match` are the per-position tallies of the records counted |
| Snv.SnvCounters.CountRows | src/quantify_methylation.cpp:501-510 | the recount is the number of targets with positive total |
| Snv.SnvCounters.Report | src/quantify_methylation.cpp:524-533 | the fill loop emits one row per kept target, with position `i + offset + 1`, `match` and `total` |
| Snv.MarkTargets | src/quantify_methylation.cpp:461-466 | corrected scan: the C and the G of every CpG are marked at string index + leftextension, and `nTarget` is twice the number of CpGs |
| Snv.MarkTargetsAsWritten | src/quantify_methylation.cpp:461-466 | the scan as written marks at the bare string index (see Findings) |
| Snv.NewTargetsAsWritten | src/quantify_methylation.cpp:448-466 | fresh target masks of `seqlen + 2*MAX_READ_LENGTH` entries hold exactly the marks of the scan as written, and `nTarget` is twice the number of CpGs |
| Snv.NewTargets | src/quantify_methylation.cpp:448-466 | the same with the corrected marks (see Findings) |
| Snv.CountRegion | src/quantify_methylation.cpp:445-495 | fresh counters hold the tallies of every record of every file |
| Snv.ReportRegion | src/quantify_methylation.cpp:468-533 | over whatever masks the scan produced: the rows are the counts and fill over those masks; the vectors get `nTarget` entries, the scanned count with `returnZero` and the recount, equal to the rows filled, without |
| Snv.DetectSnvs | src/quantify_methylation.cpp:416-556 | as written: the rows are the report over the bare-index marks; `nTarget` is twice the CpG count with `returnZero` and the row count without; the fill never writes more rows than `nTarget` |
| Snv.DetectSnvsCorrected | src/quantify_methylation.cpp:416-556 | with the corrected scan: the rows are the SNV report of the CpG targets, and the fill writes exactly the `nTarget` allocated entries |
| Snv.SnvReportRowCount | src/quantify_methylation.cpp:465 | with the corrected scan and `returnZero`, the report has `nTarget` rows, two per CpG |
| Snv.SnvReportTargets | src/quantify_methylation.cpp:461-466 | with the corrected scan, every row's position is the C or the G of a CpG of the reference string |
| Snv.SnvReportIncreasing | src/quantify_methylation.cpp:525-533 | row positions strictly increase, in the report as written and in the corrected one |
| Snv.SnvReportBounded | src/quantify_methylation.cpp:529-530 | in every row, `match ≤ total`, in the report as written and in the corrected one |
| Snv.SnvReportDropsZeroRows | src/quantify_methylation.cpp:501-533 | without `returnZero`, the rows are exactly the `returnZero` rows with positive total, in the report as written and in the corrected one |
| Snv.AsWrittenRowsWithinTargets | src/quantify_methylation.cpp:461-533 | as written, with `returnZero` the fill writes at most `nTarget` rows: the allocated vectors are never overrun |
| Snv.AsWrittenRowsShifted | src/quantify_methylation.cpp:461-533 | as written, every row stands `leftextension` bases left of the C or the G of the CpG it was marked for |
| Snv.AsWrittenShiftsTargets | src/quantify_methylation.cpp:461-466 | as written, region "CG" at 1-based start 2 reports one row, at the C's position, while `nTarget` is 2 |
| Frequencies.BaseIndex | src/nucleotide_alignment_frequencies.c:68 | `bit2idx` maps A, C, G and T to 0..3 and every other 4-bit code to 4 |
| Frequencies.FlatDecode | src/nucleotide_alignment_frequencies.c:107-109 | the offset `ref + 5*read + 25*cycle` decodes back to its three parts, so two different cells never share a matrix slot, and it stays below `25 * qlen` |
| Frequencies.Cycle | src/nucleotide_alignment_frequencies.c:106-109 | forward reads use cycle `z`, reverse reads `qlen-1-z`, always below the query length |
| Frequencies.AlignedCell | src/nucleotide_alignment_frequencies.c:100-109 | the cell of an aligned base is a valid matrix slot |
| Frequencies.CellsCount | src/nucleotide_alignment_frequencies.c:96-132 | the walk counts one cell per M/=/X base; I, S, D, N, H and P count none |
| Frequencies.OpCellsAt | src/nucleotide_alignment_frequencies.c:98-118 | the `j`-th base of a match block is counted at reference `x+j` and read `y+j` |
| Frequencies.CellsValid | src/nucleotide_alignment_frequencies.c:107-109 | every counted cell lies inside the matrix of the record's query length |
| Frequencies.CellsMirror | src/nucleotide_alignment_frequencies.c:106-109 | the reverse-strand cells are the forward-strand cells with the cycle mirrored |
| Frequencies.ForwardCyclesIncrease | src/nucleotide_alignment_frequencies.c:96-132 | for a forward read, counted cycles strictly increase along the walk and stay below the query length |
| Frequencies.BumpCellsCounts | src/nucleotide_alignment_frequencies.c:107-109 | each matrix slot gains exactly the number of counted cells mapping to it |
| Frequencies.CountBlock | src/nucleotide_alignment_frequencies.c:98-117 | the base loop of a match block counts each base until the reference terminator, and reports how many it counted |
| Frequencies.ScanDeletion | src/nucleotide_alignment_frequencies.c:119-124 | the deletion scan stops at the reference terminator |
| Frequencies.WalkOp | src/nucleotide_alignment_frequencies.c:97-131 | inside the window no terminator is met; each operation advances `x` and `y` by its kind and counts its cells |
| Frequencies.StepCigar | src/nucleotide_alignment_frequencies.c:96-132 | after operation `i`, the coordinates and the matrix match the walk of the first `i+1` operations |
| Frequencies.WalkCigar | src/nucleotide_alignment_frequencies.c:96-132 | the CIGAR loop adds exactly the record's cells to the matrix |
| Frequencies.WalkRecord | src/nucleotide_alignment_frequencies.c:96-132 | the CIGAR walk adds the record's cells to the matrix it is given, one count per cell |
| Frequencies.FragBucket | src/nucleotide_alignment_frequencies.c:85-93 | insert size `s < frag_dist_len` goes to bucket `s-1`, larger sizes to the last bucket |
| Frequencies.RunOutsideWindow | src/nucleotide_alignment_frequencies.c:50 | records not lying wholly in `[start, end)` change nothing |
| Frequencies.RunLongest | src/nucleotide_alignment_frequencies.c:79-81 | `len` ends as the longest query length among the contained records, or stays as it was |
| Frequencies.RunKeys | src/nucleotide_alignment_frequencies.c:71-76 | the key list is the keys of the contained non-read-2 records, in order, cut at `chunk_size` |
| Frequencies.RunMatrix | src/nucleotide_alignment_frequencies.c:41-132 | each matrix gains exactly the cells of the contained records of its kind |
| Frequencies.RunHistogram | src/nucleotide_alignment_frequencies.c:84-93 | each histogram bucket gains the number of contained read-1 records with a non-zero insert size in that bucket |
| Frequencies.InsertKey | src/nucleotide_alignment_frequencies.c:231 | inserting keeps the list sorted and adds exactly the key |
| Frequencies.SortKeys | src/nucleotide_alignment_frequencies.c:231 | the sort returns a sorted permutation of the keys |
| Frequencies.DistinctPermutation | src/nucleotide_alignment_frequencies.c:231 | sorting does not change the number of distinct keys |
| Frequencies.DistinctStep | src/nucleotide_alignment_frequencies.c:233-236 | in a sorted list, each key that differs from its predecessor is one more distinct key |
| Frequencies.CountUnique | src/nucleotide_alignment_frequencies.c:229-237 | `unique` is the number of distinct keys, at most `count_aln`, and 0 exactly when no key was recorded |
| Frequencies.Profiler.constructor | src/nucleotide_alignment_frequencies.c:207-220 | the fetch parameters start with `len = 0` and no keys |
| Frequencies.Profiler.AddRecord | src/nucleotide_alignment_frequencies.c:37-136 | the callback applies the one-record step to all counters |
| Frequencies.Profiler.CountCells | src/nucleotide_alignment_frequencies.c:41-132 | the record's cells go to `mm_dist2` for a read-2 record and to `mm_dist` otherwise; the other matrix is unchanged |
| Frequencies.Profiler.CountFragment | src/nucleotide_alignment_frequencies.c:84-93 | the histogram gains the record's bucket |
| Frequencies.Profiler.AddRecords | src/nucleotide_alignment_frequencies.c:226 | the fetch applies the step for each record in turn |
| Frequencies.NucleotideAlignmentFrequencies | src/nucleotide_alignment_frequencies.c:153-253 | the vectors hold the run over all records; `uniqueness[0]` gains the distinct key count and `uniqueness[1]` the recorded key count; the result is `len` |
| Frequencies.NoWindowRecords | src/nucleotide_alignment_frequencies.c:249-252 | with no record inside the window, the result is 0 and no key is recorded |

## Left out

- **BAM I/O.**
  - Opening the BAM file and index, the header lookup of the target name, and `bam_fetch`'s choice of overlapping records are not modelled.
  - The records each fetch hands to the callback are an input sequence, one per file or region.
  - Errors from opening files and indices are not modelled.
- **R interface.**
  - The type and length checks on R arguments, `SEXP` allocation, `PROTECT` and name attributes are not modelled.
  - The MAPQ range checks and the methylation mode check are kept as error results.
  - Rows carry position, strand and counts. The chromosome-name column is not modelled.
- **Integer widths.** Counters, coordinates and result vectors are unbounded integers. The C `int`/`unsigned int` counters could overflow; that is not modelled.
- **Key length.** The 1024-byte `snprintf` buffer for junction keys is not modelled. A target name longer than about 1000 characters would be truncated there and not here.
- **Memory and locals.** `R_Calloc`/`R_Free`, the `static` locals of the callbacks and the commented-out helpers of `quantify_methylation.cpp` are not modelled.
- **Unchecked array bounds.** The source does not check that a record starting at or right of the offset ends within the arrays padded by 500 bases, nor that its read bases cover its span. These are `requires` on the methylation and SNV members:
  - `Targets.Fits`: the span of a record starting at or right of the offset fits the padded arrays;
  - `Methylation.Readable`: the read bases cover the span.

  A record that starts left of the offset is modelled: the unsigned loop index wraps, so it counts nothing (`Targets.Covers`).
- **Frequencies.NucleotideAlignmentFrequencies:**
  - It requires `Frequencies.Fits` of every record inside the window: one base per query position, 25 count slots per cycle in the matrix the record goes to, and a non-empty `frag_dist` for a read-1 record with an insert size. The source writes without checking any of these.
  - It also requires the four R vectors to be different arrays.
- **MethylationAllele.AlleleCounters.AddHitToCountsAllele:** it requires an XV tag on every record, because the source reads the tag without checking that it is present.
- **Unused bookkeeping.** The `u`/`nm` mismatch bookkeeping in `_nucleotide_alignment_frequencies` is computed but never stored, so it is not modelled.
- **Base codes.** `bam_nt16_table` is reduced to the codes the matrix distinguishes: A, C, G, T, '=' and "anything else". Every other IUPAC code reaches index 4 through `bit2idx` either way.
- **Uniqueness keys.**
  - A `"%i_%i"` key is modelled as its (position, insert size) pair. The string is a faithful encoding of the pair, since the position is never negative.
  - The sort order is on pairs rather than `strcmp`. The distinct count does not depend on the order (`Frequencies.DistinctPermutation`).
- **Frequencies.CountBlock, Frequencies.ScanDeletion:** these model the terminator break, but within one block only. For a record inside the window, the walk methods require the reference to extend past the alignment end, which the window test guarantees, so the break can never fire there (`Frequencies.WalkOp` ensures it does not).
- **Methylation.MethCounters.CountRows, MethylationAllele.AlleleCounters.CountRows, MethylationAllele.AlleleCounters.CountSeparate, MethylationAllele.AlleleCounters.PreCountAt:** their count equals the number of report rows only in mode 0 or when no index is marked on both strands.
  - This is how the source counts: one per index, while the fill may emit two rows for such an index.
  - The masks built by the drivers never mark an index twice (`Targets.MarksDisjoint`), so the drivers prove equality.
- **Methylation.QuantifyMethylation, MethylationAllele.QuantifyMethylationAllele, Snv.DetectSnvs, Snv.DetectSnvsCorrected:** they require `regionStart >= 1`. A region starting before base 1 gives a negative `leftextension`, and the source then writes before the start of its arrays (`outputPlus[-1]` and the like), which is undefined behaviour. Such regions are not modelled.
- **Junction key order.** Junction keys are ordered by code point, which agrees with `std::string` order on byte characters. Multi-byte target names are not modelled.

## Findings

| source | as written | input that shows it | evidently intended | confidence | as-written member | corrected member |
|---|---|---|---|---|---|---|
| src/quantify_methylation.cpp:461-466 | `detect_SNVs` marks `targetC[i]` and `targetG[i+1]` at the bare string index, while the counters, the recount (505-508) and the fill loop (525-533) use array index `i + leftextension` | region "CG" at `regionStart` 2 (leftextension 1) with `returnZero`: one row, at position 2 where the reference has its C, while `nTarget` is 2, so one allocated result entry is never written; in general every row stands `leftextension` bases left of its CpG, and the marks below string index `leftextension` are never reached | mark `targetC[i+leftextension]` and `targetG[i+1+leftextension]`, as `quantify_methylation` does at lines 270-271 | not executed | Snv.DetectSnvs, Snv.AsWrittenShiftsTargets | Snv.DetectSnvsCorrected, Snv.SnvReportRowCount |
