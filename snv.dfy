/** detect_SNVs: at the C and the G of every CpG of a region, how many
    reads cover the position on the opposite strand (total) and how many of
    them read the reference base there (match). Bisulfite conversion leaves
    the opposite strand's base alone, so a mismatch there points at a
    sequence variant rather than at methylation. */
module Snv {
  import opened Bam
  import opened Targets
  import opened Methylation

  /** The two counter arrays: every read at a target, and the reads that
      show the reference base there. */
  datatype SnvCounter = Total | Matched

  /** The increment one record makes to counter c at array index k, tc and
      tg being the targetC and targetG entries there. A reverse read is
      looked at on the C targets, where a C is a match; a forward read on
      the G targets, where a G is a match. Any base counts in the total. */
  function SnvInc(c: SnvCounter, h: Record, offset: nat, tc: bool, tg: bool, k: int): nat
    requires RefLen(h.cigar) <= |h.bases|
  {
    if !Covers(h, offset, k) then 0
    else
      var b := BaseAt(h, offset, k);
      if h.reverse then (if tc && (c == Total || b == BaseC) then 1 else 0)
      else (if tg && (c == Total || b == BaseG) then 1 else 0)
  }

  /** Counter c at index k after the records were counted from zero. */
  function SnvTally(c: SnvCounter, hits: seq<Record>, offset: nat, tc: bool, tg: bool, k: int): nat
    requires Readable(hits)
  {
    if hits == [] then 0
    else SnvTally(c, hits[..|hits| - 1], offset, tc, tg, k) + SnvInc(c, hits[|hits| - 1], offset, tc, tg, k)
  }

  /** A match is also counted in the total. */
  lemma {:induction false} SnvTallyMatchBounded(hits: seq<Record>, offset: nat, tc: bool, tg: bool, k: int)
    requires Readable(hits)
    ensures SnvTally(Matched, hits, offset, tc, tg, k) <= SnvTally(Total, hits, offset, tc, tg, k)
  {
    if hits != [] {
      var p := hits[..|hits| - 1];
      assert forall h :: h in p ==> h in hits;
      SnvTallyMatchBounded(p, offset, tc, tg, k);
    }
  }

  /** Counter c over the whole array. */
  function SnvTallySeq(c: SnvCounter, hits: seq<Record>, offset: nat, tc: seq<bool>, tg: seq<bool>): (r: seq<nat>)
    requires Readable(hits) && |tg| == |tc|
    ensures |r| == |tc|
  {
    seq(|tc|, k requires 0 <= k < |tc| => SnvTally(c, hits, offset, tc[k], tg[k], k))
  }

  // ---------------------------------------------------------------------
  // The target scan

  /** The target scan of detect_SNVs as written: the C and the G of every
      CpG are marked at their string index, without the leftextension shift
      the counters and the report loops use. Returns nTarget. */
  method MarkTargetsAsWritten(s: string, targetC: array<bool>, targetG: array<bool>) returns (nTarget: nat)
    requires targetC != targetG && targetC.Length == targetG.Length && |s| <= targetC.Length
    requires forall k :: 0 <= k < targetC.Length ==> !targetC[k] && !targetG[k]
    modifies targetC, targetG
    ensures nTarget == NOutput(s, 1)
    ensures forall k :: 0 <= k < targetC.Length ==> targetC[k] == PlusMark(s, 1, 0, k) && targetG[k] == MinusMark(s, 1, 0, k)
  {
    nTarget := 0;
    var i := 0;
    while i < |s| - 1
      invariant 0 <= i <= |s|
      invariant |s| > 0 ==> i < |s|
      invariant nTarget == 2 * CountCpG(s, i)
      invariant forall k :: 0 <= k < targetC.Length ==> targetC[k] == (PlusMark(s, 1, 0, k) && k < i)
      invariant forall k :: 0 <= k < targetC.Length ==> targetG[k] == (MinusMark(s, 1, 0, k) && k < i + 1)
    {
      if IsC(s[i]) && IsG(s[i + 1]) {
        targetC[i] := true;
        targetG[i + 1] := true;
        nTarget := nTarget + 2;
      }
      i := i + 1;
    }
    assert nTarget == 2 * CountCpG(s, |s|) by {
      if |s| > 0 {
        assert !CpGAt(s, |s| - 1);
      }
    }
  }

  /** The target scan with the C and the G of every CpG marked at their
      array index, string index plus leftextension, as quantify_methylation
      marks them in mode 1. Returns nTarget. */
  method MarkTargets(s: string, ext: nat, targetC: array<bool>, targetG: array<bool>) returns (nTarget: nat)
    requires targetC != targetG && targetC.Length == targetG.Length && |s| + ext <= targetC.Length
    requires forall k :: 0 <= k < targetC.Length ==> !targetC[k] && !targetG[k]
    modifies targetC, targetG
    ensures nTarget == NOutput(s, 1)
    ensures forall k :: 0 <= k < targetC.Length ==> targetC[k] == PlusMark(s, 1, ext, k) && targetG[k] == MinusMark(s, 1, ext, k)
  {
    nTarget := 0;
    var i := 0;
    while i < |s| - 1
      invariant 0 <= i <= |s|
      invariant |s| > 0 ==> i < |s|
      invariant nTarget == 2 * CountCpG(s, i)
      invariant forall k :: 0 <= k < targetC.Length ==> targetC[k] == (PlusMark(s, 1, ext, k) && k < i + ext)
      invariant forall k :: 0 <= k < targetC.Length ==> targetG[k] == (MinusMark(s, 1, ext, k) && k < i + 1 + ext)
    {
      if IsC(s[i]) && IsG(s[i + 1]) {
        targetC[i + ext] := true;
        targetG[i + 1 + ext] := true;
        nTarget := nTarget + 2;
      }
      i := i + 1;
    }
    assert nTarget == 2 * CountCpG(s, |s|) by {
      if |s| > 0 {
        assert !CpGAt(s, |s| - 1);
      }
    }
  }

  // ---------------------------------------------------------------------
  // Report rows

  /** One output row: position, then the columns nTotal and nMatch. */
  datatype SnvRow = SnvRow(pos: int, total: nat, matched: nat)

  /** The array indices the fill loop writes a row for, over [lo, hi): a
      C or G target whose total is non-zero unless zero rows are kept. */
  function SnvSites(keepZero: bool, tc: seq<bool>, tg: seq<bool>, total: seq<nat>, lo: nat, hi: nat): (r: seq<nat>)
    requires lo <= hi <= |tc| && |tg| == |tc| && |total| == |tc|
    decreases hi
  {
    if hi == lo then []
    else SnvSites(keepZero, tc, tg, total, lo, hi - 1)
         + (if (tc[hi - 1] || tg[hi - 1]) && (keepZero || total[hi - 1] > 0) then [hi - 1] else [])
  }

  /** The row written for array index i. */
  function SnvRowAt(i: nat, matched: seq<nat>, total: seq<nat>, offset: nat): SnvRow {
    SnvRow(i + offset + 1, if i < |total| then total[i] else 0, if i < |matched| then matched[i] else 0)
  }

  function SnvRows(xs: seq<nat>, matched: seq<nat>, total: seq<nat>, offset: nat): (r: seq<SnvRow>)
    ensures |r| == |xs|
  {
    seq(|xs|, j requires 0 <= j < |xs| => SnvRowAt(xs[j], matched, total, offset))
  }

  lemma SnvRowsAppend(a: seq<nat>, b: seq<nat>, matched: seq<nat>, total: seq<nat>, offset: nat)
    ensures SnvRows(a + b, matched, total, offset) == SnvRows(a, matched, total, offset) + SnvRows(b, matched, total, offset)
  {
    var l, r := SnvRows(a + b, matched, total, offset), SnvRows(a, matched, total, offset) + SnvRows(b, matched, total, offset);
    forall j | 0 <= j < |l| ensures l[j] == r[j] {
      if j >= |a| {
        assert (a + b)[j] == b[j - |a|];
      }
    }
  }

  /** The counter arrays of one region, with their target masks and offset. */
  class SnvCounters {
    const matched: array<nat>
    const total: array<nat>
    const targetC: array<bool>
    const targetG: array<bool>
    const offset: nat

    /** The records counted so far. */
    ghost var counted: seq<Record>

    /** Equal lengths and two distinct counter arrays. */
    ghost predicate Shape() {
      matched.Length == total.Length && targetC.Length == total.Length && targetG.Length == total.Length && matched != total
    }

    /** Every counter holds the tally of the records counted so far. */
    ghost predicate Valid()
      reads this, matched, total, targetC, targetG
    {
      && Shape() && Readable(counted)
      && forall k :: 0 <= k < total.Length ==>
        && total[k] == SnvTally(Total, counted, offset, targetC[k], targetG[k], k)
        && matched[k] == SnvTally(Matched, counted, offset, targetC[k], targetG[k], k)
    }

    constructor (targetC: array<bool>, targetG: array<bool>, offset: nat)
      requires targetC.Length == targetG.Length
      ensures Valid() && this.targetC == targetC && this.targetG == targetG && this.offset == offset && counted == []
      ensures fresh(matched) && fresh(total)
    {
      this.targetC := targetC;
      this.targetG := targetG;
      this.offset := offset;
      matched := new nat[targetC.Length](_ => 0);
      total := new nat[targetC.Length](_ => 0);
      counted := [];
    }

    /** addHitToSNP: walk the reference positions of the record with the
        read index in lock-step and count the base read at every target of
        the opposite strand. */
    method AddHitToSnp(h: Record)
      requires Valid() && Fits(h, offset, total.Length)
      modifies this, matched, total
      ensures Valid() && counted == old(counted) + [h]
    {
      if h.reverse {
        CountReverse(h);
      } else {
        CountForward(h);
      }
      counted := counted + [h];
      assert counted[..|counted| - 1] == old(counted);
    }

    /** The records bam_fetch hands to addHitToSNP for one file, in order. */
    method AddHits(hits: seq<Record>)
      requires Valid() && forall h :: h in hits ==> Fits(h, offset, total.Length)
      modifies this, matched, total
      ensures Valid() && counted == old(counted) + hits
    {
      var i := 0;
      while i < |hits|
        invariant i <= |hits| && Valid() && counted == old(counted) + hits[..i]
      {
        AddHitToSnp(hits[i]);
        assert hits[..i + 1] == hits[..i] + [hits[i]];
        i := i + 1;
      }
      assert hits[..i] == hits;
    }

    /** The loop over the input files. */
    method AddFiles(files: seq<seq<Record>>)
      requires Valid() && forall f, h :: f in files && h in f ==> Fits(h, offset, total.Length)
      modifies this, matched, total
      ensures Valid() && counted == old(counted) + Flatten(files)
    {
      var f := 0;
      while f < |files|
        invariant f <= |files| && Valid() && counted == old(counted) + Flatten(files[..f])
      {
        assert forall h :: h in files[f] ==> Fits(h, offset, total.Length);
        AddHits(files[f]);
        assert files[..f + 1][..f] == files[..f];
        f := f + 1;
      }
      assert files[..f] == files;
    }

    /** The arrays as sequences: the tallies of the records counted. */
    lemma Tallies()
      requires Valid()
      ensures total[..] == SnvTallySeq(Total, counted, offset, targetC[..], targetG[..])
      ensures matched[..] == SnvTallySeq(Matched, counted, offset, targetC[..], targetG[..])
    {
    }

    /** The loop for a reverse read: at every C target, a C is a match. */
    method CountReverse(h: Record)
      requires Shape() && Fits(h, offset, total.Length) && h.reverse
      modifies matched, total
      ensures forall k :: 0 <= k < total.Length ==>
        && total[k] == old(total[k]) + SnvInc(Total, h, offset, targetC[k], targetG[k], k)
        && matched[k] == old(matched[k]) + SnvInc(Matched, h, offset, targetC[k], targetG[k], k)
    {
      // i is unsigned: when pos < offset, pos - offset wraps above
      // calend - offset and the loop makes no iteration.
      if offset <= h.pos {
        var i: nat := h.pos - offset;
        var j: nat := 0;
        var e := CalEnd(h) - offset;
        while i < e
          invariant h.pos - offset <= i <= e && j == i - (h.pos - offset)
          invariant forall k :: 0 <= k < i ==>
            && total[k] == old(total[k]) + SnvInc(Total, h, offset, targetC[k], targetG[k], k)
            && matched[k] == old(matched[k]) + SnvInc(Matched, h, offset, targetC[k], targetG[k], k)
          invariant forall k :: i <= k < total.Length ==> total[k] == old(total[k]) && matched[k] == old(matched[k])
        {
          CountReverseAt(h, i);
          i, j := i + 1, j + 1;
        }
      }
    }

    /** The loop for a forward read: at every G target, a G is a match. */
    method CountForward(h: Record)
      requires Shape() && Fits(h, offset, total.Length) && !h.reverse
      modifies matched, total
      ensures forall k :: 0 <= k < total.Length ==>
        && total[k] == old(total[k]) + SnvInc(Total, h, offset, targetC[k], targetG[k], k)
        && matched[k] == old(matched[k]) + SnvInc(Matched, h, offset, targetC[k], targetG[k], k)
    {
      // i is unsigned: when pos < offset, pos - offset wraps above
      // calend - offset and the loop makes no iteration.
      if offset <= h.pos {
        var i: nat := h.pos - offset;
        var j: nat := 0;
        var e := CalEnd(h) - offset;
        while i < e
          invariant h.pos - offset <= i <= e && j == i - (h.pos - offset)
          invariant forall k :: 0 <= k < i ==>
            && total[k] == old(total[k]) + SnvInc(Total, h, offset, targetC[k], targetG[k], k)
            && matched[k] == old(matched[k]) + SnvInc(Matched, h, offset, targetC[k], targetG[k], k)
          invariant forall k :: i <= k < total.Length ==> total[k] == old(total[k]) && matched[k] == old(matched[k])
        {
          CountForwardAt(h, i);
          i, j := i + 1, j + 1;
        }
      }
    }

    /** One step of the reverse-read loop, at array index i. */
    method CountReverseAt(h: Record, i: nat)
      requires Shape() && Fits(h, offset, total.Length) && Covers(h, offset, i) && h.reverse
      modifies matched, total
      ensures total[i] == old(total[i]) + SnvInc(Total, h, offset, targetC[i], targetG[i], i)
      ensures matched[i] == old(matched[i]) + SnvInc(Matched, h, offset, targetC[i], targetG[i], i)
      ensures forall k :: 0 <= k < total.Length && k != i ==> total[k] == old(total[k]) && matched[k] == old(matched[k])
    {
      var b := h.bases[i - (h.pos - offset)];
      assert BaseAt(h, offset, i) == b;
      if targetC[i] {
        if b == BaseC {
          total[i] := total[i] + 1;
          matched[i] := matched[i] + 1;
        } else {
          total[i] := total[i] + 1;
        }
      }
    }

    /** One step of the forward-read loop, at array index i. */
    method CountForwardAt(h: Record, i: nat)
      requires Shape() && Fits(h, offset, total.Length) && Covers(h, offset, i) && !h.reverse
      modifies matched, total
      ensures total[i] == old(total[i]) + SnvInc(Total, h, offset, targetC[i], targetG[i], i)
      ensures matched[i] == old(matched[i]) + SnvInc(Matched, h, offset, targetC[i], targetG[i], i)
      ensures forall k :: 0 <= k < total.Length && k != i ==> total[k] == old(total[k]) && matched[k] == old(matched[k])
    {
      var b := h.bases[i - (h.pos - offset)];
      assert BaseAt(h, offset, i) == b;
      if targetG[i] {
        if b == BaseG {
          total[i] := total[i] + 1;
          matched[i] := matched[i] + 1;
        } else {
          total[i] := total[i] + 1;
        }
      }
    }

    /** The re-count loop that runs when zero rows are dropped: one per
        target index with a non-zero total. */
    method CountRows(lo: nat, n: nat) returns (j: nat)
      requires Shape() && lo + n <= total.Length
      ensures j == |SnvSites(false, targetC[..], targetG[..], total[..], lo, lo + n)|
    {
      ghost var C, G, T := targetC[..], targetG[..], total[..];
      j := 0;
      var i := lo;
      while i < lo + n
        invariant lo <= i <= lo + n
        invariant j == |SnvSites(false, C, G, T, lo, i)|
      {
        if (targetC[i] || targetG[i]) && total[i] > 0 {
          j := j + 1;
        }
        i := i + 1;
      }
    }

    /** The fill loop: one row per target index, unless its total is zero
        and zero rows are dropped. */
    method Report(keepZero: bool, lo: nat, n: nat) returns (rows: seq<SnvRow>)
      requires Shape() && lo + n <= total.Length
      ensures rows == SnvRows(SnvSites(keepZero, targetC[..], targetG[..], total[..], lo, lo + n), matched[..], total[..], offset)
    {
      ghost var C, G, M, T := targetC[..], targetG[..], matched[..], total[..];
      rows := [];
      var i := lo;
      while i < lo + n
        invariant lo <= i <= lo + n
        invariant rows == SnvRows(SnvSites(keepZero, C, G, T, lo, i), M, T, offset)
      {
        ghost var before := SnvSites(keepZero, C, G, T, lo, i);
        var here := [];
        if (targetC[i] || targetG[i]) && (keepZero || total[i] > 0) {
          here := [SnvRow(i + offset + 1, total[i], matched[i])];
        }
        ghost var sites := if (C[i] || G[i]) && (keepZero || T[i] > 0) then [i] else [];
        assert rows + here == SnvRows(SnvSites(keepZero, C, G, T, lo, i + 1), M, T, offset) by {
          assert here == SnvRows(sites, M, T, offset);
          SnvRowsAppend(before, sites, M, T, offset);
        }
        rows := rows + here;
        i := i + 1;
      }
    }
  }

  // ---------------------------------------------------------------------
  // The report of one region

  /** The rows detect_SNVs returns for the reference string s of a region
      starting at 0-based start, after counting the records hits, with the
      targets marked at their array index. */
  function SnvReport(hits: seq<Record>, s: string, start: nat, keepZero: bool): seq<SnvRow>
    requires Readable(hits)
  {
    var ext, offset, size := LeftExtension(start), Offset(start), BufferSize(s);
    SnvReportOver(hits, s, ext, offset, PlusMask(s, 1, ext, size), MinusMask(s, 1, ext, size), keepZero)
  }

  /** The same report over the targets the scan marks as written. */
  function SnvReportAsWritten(hits: seq<Record>, s: string, start: nat, keepZero: bool): seq<SnvRow>
    requires Readable(hits)
  {
    var ext, offset, size := LeftExtension(start), Offset(start), BufferSize(s);
    SnvReportOver(hits, s, ext, offset, PlusMask(s, 1, 0, size), MinusMask(s, 1, 0, size), keepZero)
  }

  /** Count and fill over the given target masks. */
  function SnvReportOver(hits: seq<Record>, s: string, ext: nat, offset: nat, tc: seq<bool>, tg: seq<bool>, keepZero: bool): seq<SnvRow>
    requires Readable(hits) && |tg| == |tc| && ext + |s| <= |tc|
  {
    var total := SnvTallySeq(Total, hits, offset, tc, tg);
    SnvRows(SnvSites(keepZero, tc, tg, total, ext, ext + |s|), SnvTallySeq(Matched, hits, offset, tc, tg), total, offset)
  }

  /** The counting phase of detect_SNVs: fresh zeroed counters over the
      target masks, then every record of every file counted. */
  method CountRegion(files: seq<seq<Record>>, targetC: array<bool>, targetG: array<bool>, offset: nat) returns (c: SnvCounters)
    requires targetC.Length == targetG.Length
    requires forall f, h :: f in files && h in f ==> Fits(h, offset, targetC.Length)
    ensures c.Shape() && c.targetC == targetC && c.targetG == targetG && c.offset == offset
    ensures Readable(Flatten(files))
    ensures c.total[..] == SnvTallySeq(Total, Flatten(files), offset, targetC[..], targetG[..])
    ensures c.matched[..] == SnvTallySeq(Matched, Flatten(files), offset, targetC[..], targetG[..])
  {
    c := new SnvCounters(targetC, targetG, offset);
    c.AddFiles(files);
    assert c.counted == Flatten(files) by {
      assert [] + Flatten(files) == Flatten(files);
    }
    c.Tallies();
  }

  /** detect_SNVs for one region, as written: files holds, per input file,
      the records bam_fetch delivers for the region. The target scan marks
      at the bare string index (MarkTargetsAsWritten); the rows are those of
      SnvReportAsWritten. The result vectors are allocated with nTarget
      entries, which is never fewer than the rows the fill loop writes. */
  method DetectSnvs(files: seq<seq<Record>>, s: string, regionStart: int, keepZero: bool)
    returns (rows: seq<SnvRow>, nTarget: nat)
    requires regionStart >= 1
    requires forall f, h :: f in files && h in f ==> Fits(h, Offset(regionStart - 1), BufferSize(s))
    ensures Readable(Flatten(files)) && rows == SnvReportAsWritten(Flatten(files), s, regionStart - 1, keepZero)
    ensures nTarget == if keepZero then NOutput(s, 1) else |rows|
    ensures |rows| <= nTarget
  {
    var start := regionStart - 1;
    var targetC, targetG, nMarked := NewTargetsAsWritten(s);
    rows, nTarget := ReportRegion(files, s, start, keepZero, targetC, targetG, nMarked);
    if keepZero {
      AsWrittenRowsWithinTargets(Flatten(files), s, start);
    }
  }

  /** detect_SNVs with the target scan corrected (MarkTargets): the rows are
      those of SnvReport, and the fill loop writes every one of the nTarget
      allocated entries. */
  method DetectSnvsCorrected(files: seq<seq<Record>>, s: string, regionStart: int, keepZero: bool)
    returns (rows: seq<SnvRow>, nTarget: nat)
    requires regionStart >= 1
    requires forall f, h :: f in files && h in f ==> Fits(h, Offset(regionStart - 1), BufferSize(s))
    ensures Readable(Flatten(files)) && rows == SnvReport(Flatten(files), s, regionStart - 1, keepZero)
    ensures nTarget == |rows|
    ensures keepZero ==> nTarget == NOutput(s, 1)
  {
    var start := regionStart - 1;
    var targetC, targetG, nMarked := NewTargets(s, LeftExtension(start));
    rows, nTarget := ReportRegion(files, s, start, keepZero, targetC, targetG, nMarked);
    if keepZero {
      SnvReportRowCount(Flatten(files), s, start);
    }
  }

  /** detect_SNVs after the target scan, over whatever masks it produced
      and the nTarget it counted: count, re-count when zero rows are
      dropped, allocate nTarget entries and fill rows into them. */
  method ReportRegion(files: seq<seq<Record>>, s: string, start: nat, keepZero: bool,
                      targetC: array<bool>, targetG: array<bool>, nMarked: nat)
    returns (rows: seq<SnvRow>, nTarget: nat)
    requires targetC.Length == BufferSize(s) && targetG.Length == BufferSize(s)
    requires forall f, h :: f in files && h in f ==> Fits(h, Offset(start), BufferSize(s))
    ensures Readable(Flatten(files))
    ensures rows == SnvReportOver(Flatten(files), s, LeftExtension(start), Offset(start), targetC[..], targetG[..], keepZero)
    ensures nTarget == if keepZero then nMarked else |rows|
  {
    var ext := LeftExtension(start);
    nTarget := nMarked;
    ghost var C, G := targetC[..], targetG[..];
    var counters := CountRegion(files, targetC, targetG, start - ext);
    ghost var T, M := counters.total[..], counters.matched[..];
    if !keepZero {
      nTarget := counters.CountRows(ext, |s|);
      assert counters.targetC[..] == C && counters.targetG[..] == G && counters.total[..] == T;
    }
    rows := counters.Report(keepZero, ext, |s|);
    assert counters.targetC[..] == C && counters.targetG[..] == G;
    assert counters.total[..] == T && counters.matched[..] == M;
  }

  /** The two zeroed target arrays of BufferSize(s) entries, marked by the
      corrected target scan. */
  method NewTargets(s: string, ext: nat) returns (targetC: array<bool>, targetG: array<bool>, nTarget: nat)
    requires ext <= MaxReadLength
    ensures fresh(targetC) && fresh(targetG) && targetC != targetG
    ensures targetC[..] == PlusMask(s, 1, ext, BufferSize(s)) && targetG[..] == MinusMask(s, 1, ext, BufferSize(s))
    ensures nTarget == NOutput(s, 1)
  {
    var size := |s| + 2 * MaxReadLength;
    targetC := new bool[size](_ => false);
    targetG := new bool[size](_ => false);
    nTarget := MarkTargets(s, ext, targetC, targetG);
  }

  /** The two zeroed target arrays of BufferSize(s) entries, marked by the
      target scan as written. */
  method NewTargetsAsWritten(s: string) returns (targetC: array<bool>, targetG: array<bool>, nTarget: nat)
    ensures fresh(targetC) && fresh(targetG) && targetC != targetG
    ensures targetC[..] == PlusMask(s, 1, 0, BufferSize(s)) && targetG[..] == MinusMask(s, 1, 0, BufferSize(s))
    ensures nTarget == NOutput(s, 1)
  {
    var size := |s| + 2 * MaxReadLength;
    targetC := new bool[size](_ => false);
    targetG := new bool[size](_ => false);
    nTarget := MarkTargetsAsWritten(s, targetC, targetG);
  }

  /** The fill range [lo, hi) splits at any mid point. */
  lemma {:induction false} SnvSitesSplit(keepZero: bool, tc: seq<bool>, tg: seq<bool>, total: seq<nat>, lo: nat, mid: nat, hi: nat)
    requires lo <= mid <= hi <= |tc| && |tg| == |tc| && |total| == |tc|
    ensures SnvSites(keepZero, tc, tg, total, lo, hi)
         == SnvSites(keepZero, tc, tg, total, lo, mid) + SnvSites(keepZero, tc, tg, total, mid, hi)
    decreases hi
  {
    if hi > mid {
      SnvSitesSplit(keepZero, tc, tg, total, lo, mid, hi - 1);
    }
  }

  /** A range without marks yields no row. */
  lemma {:induction false} SnvSitesUnmarked(keepZero: bool, tc: seq<bool>, tg: seq<bool>, total: seq<nat>, lo: nat, hi: nat)
    requires lo <= hi <= |tc| && |tg| == |tc| && |total| == |tc|
    requires forall k :: lo <= k < hi ==> !tc[k] && !tg[k]
    ensures SnvSites(keepZero, tc, tg, total, lo, hi) == []
    decreases hi
  {
    if hi > lo {
      SnvSitesUnmarked(keepZero, tc, tg, total, lo, hi - 1);
    }
  }

  /** Over masks marked at the bare string index, the range
      [ext, ext + seqlen) holds at most nTarget sites. */
  lemma SitesWithinTargets(s: string, tc: seq<bool>, tg: seq<bool>, total: seq<nat>, ext: nat)
    requires Masks(s, 1, 0, tc, tg) && |total| == |tc| && ext + |s| < |tc|
    ensures |SnvSites(true, tc, tg, total, ext, ext + |s|)| <= NOutput(s, 1)
  {
    SnvSitesCount(s, true, tc, tg, total, 0);
    var hi := if ext <= |s| then |s| else ext;
    assert forall k :: hi <= k < ext + |s| ==> !tc[k] && !tg[k] by {
      forall k | hi <= k < ext + |s| ensures !tc[k] && !tg[k] {
        assert !PlusMark(s, 1, 0, k) && !MinusMark(s, 1, 0, k);
      }
    }
    SnvSitesUnmarked(true, tc, tg, total, hi, ext + |s|);
    SnvSitesSplit(true, tc, tg, total, ext, hi, ext + |s|);
    if ext <= |s| {
      SnvSitesSplit(true, tc, tg, total, 0, ext, |s|);
    }
  }

  /** As written, the fill loop scans [leftextension, leftextension + seqlen)
      while the marks lie in [0, seqlen): it reaches only the marks at index
      leftextension and beyond, so with returnZero it writes at most nTarget
      rows and the result vectors are never overrun. */
  lemma AsWrittenRowsWithinTargets(hits: seq<Record>, s: string, start: nat)
    requires Readable(hits)
    ensures |SnvReportAsWritten(hits, s, start, true)| <= NOutput(s, 1)
  {
    var ext, offset, size := LeftExtension(start), Offset(start), BufferSize(s);
    var tc, tg := PlusMask(s, 1, 0, size), MinusMask(s, 1, 0, size);
    MasksOf(s, 1, 0, size);
    SitesWithinTargets(s, tc, tg, SnvTallySeq(Total, hits, offset, tc, tg), ext);
  }

  // ---------------------------------------------------------------------
  // What the report promises

  /** Over disjoint masks the SNV sites are the indices of the sites of the
      separate-strand report with the total used for both strands. */
  lemma {:induction false} SnvSitesSeparate(keepZero: bool, tc: seq<bool>, tg: seq<bool>, total: seq<nat>, lo: nat, hi: nat)
    requires lo <= hi <= |tc| && |tg| == |tc| && |total| == |tc| && Disjoint(tc, tg)
    ensures var xs := SeparateSites(keepZero, tc, tg, total, total, lo, hi);
      SnvSites(keepZero, tc, tg, total, lo, hi) == seq(|xs|, j requires 0 <= j < |xs| => xs[j].idx)
    decreases hi
  {
    if hi > lo {
      SnvSitesSeparate(keepZero, tc, tg, total, lo, hi - 1);
      assert !(tc[hi - 1] && tg[hi - 1]);
    }
  }

  /** With returnZero and the masks of the scan, the report has nTarget
      sites. */
  lemma SnvSitesCount(s: string, keepZero: bool, tc: seq<bool>, tg: seq<bool>, total: seq<nat>, ext: nat)
    requires keepZero && Masks(s, 1, ext, tc, tg) && ext + |s| < |tc| && |total| == |tc|
    ensures |SnvSites(keepZero, tc, tg, total, ext, ext + |s|)| == NOutput(s, 1)
  {
    assert Disjoint(tc, tg) by {
      forall k | 0 <= k < |tc| ensures !(tc[k] && tg[k]) {
        MarksDisjoint(s, 1, ext, k);
      }
    }
    SnvSitesSeparate(keepZero, tc, tg, total, ext, ext + |s|);
    RowCountIsNOutput(s, 1, tc, tg, total, total, ext);
  }

  /** With returnZero the corrected report has one row per target: nTarget
      rows (the report as written may have fewer, AsWrittenShiftsTargets). */
  lemma SnvReportRowCount(hits: seq<Record>, s: string, start: nat)
    requires Readable(hits)
    ensures |SnvReport(hits, s, start, true)| == NOutput(s, 1)
  {
    var ext, offset, size := LeftExtension(start), Offset(start), BufferSize(s);
    var tc, tg := PlusMask(s, 1, ext, size), MinusMask(s, 1, ext, size);
    SnvSitesCount(s, true, tc, tg, SnvTallySeq(Total, hits, offset, tc, tg), ext);
  }

  /** A site is a marked index of the scanned range. */
  lemma {:induction false} SnvSiteMember(keepZero: bool, tc: seq<bool>, tg: seq<bool>, total: seq<nat>, lo: nat, hi: nat, x: nat)
    requires lo <= hi <= |tc| && |tg| == |tc| && |total| == |tc|
    requires x in SnvSites(keepZero, tc, tg, total, lo, hi)
    ensures lo <= x < hi && (tc[x] || tg[x])
    decreases hi
  {
    if x in SnvSites(keepZero, tc, tg, total, lo, hi - 1) {
      SnvSiteMember(keepZero, tc, tg, total, lo, hi - 1, x);
    }
  }

  /** Every row of the corrected report reports the C or the G of a CpG of
      the reference string, at its 1-based position. */
  lemma SnvReportTargets(hits: seq<Record>, s: string, start: nat, keepZero: bool)
    requires Readable(hits)
    ensures var rows := SnvReport(hits, s, start, keepZero);
      forall j :: 0 <= j < |rows| ==> CpGAt(s, rows[j].pos - start - 1) || CpGAt(s, rows[j].pos - start - 2)
  {
    var ext, offset, size := LeftExtension(start), Offset(start), BufferSize(s);
    SnvRowsTargets(hits, s, keepZero, PlusMask(s, 1, ext, size), MinusMask(s, 1, ext, size), ext, ext, offset);
  }

  /** Over masks marked with shift m, each row stands on the C or the G of
      a CpG at string index position - (offset + m) - 1. */
  lemma SnvRowsTargets(hits: seq<Record>, s: string, keepZero: bool, tc: seq<bool>, tg: seq<bool>, m: nat, ext: nat, offset: nat)
    requires Readable(hits) && Masks(s, 1, m, tc, tg) && ext + |s| <= |tc|
    ensures var rows := SnvReportOver(hits, s, ext, offset, tc, tg, keepZero);
      forall j :: 0 <= j < |rows| ==> CpGAt(s, rows[j].pos - (offset + m) - 1) || CpGAt(s, rows[j].pos - (offset + m) - 2)
  {
    var total := SnvTallySeq(Total, hits, offset, tc, tg);
    var xs := SnvSites(keepZero, tc, tg, total, ext, ext + |s|);
    var rows := SnvReportOver(hits, s, ext, offset, tc, tg, keepZero);
    forall j | 0 <= j < |rows| ensures CpGAt(s, rows[j].pos - (offset + m) - 1) || CpGAt(s, rows[j].pos - (offset + m) - 2) {
      assert xs[j] in xs;
      SnvSiteMember(keepZero, tc, tg, total, ext, ext + |s|, xs[j]);
      assert rows[j].pos - (offset + m) - 1 == xs[j] - m;
    }
  }

  /** As written, every row stands leftextension bases left of the C or the
      G of the CpG it was marked for: position - start - 1 + leftextension
      is that CpG's string index. */
  lemma AsWrittenRowsShifted(hits: seq<Record>, s: string, start: nat, keepZero: bool)
    requires Readable(hits)
    ensures var rows, ext := SnvReportAsWritten(hits, s, start, keepZero), LeftExtension(start);
      forall j :: 0 <= j < |rows| ==> CpGAt(s, rows[j].pos - start - 1 + ext) || CpGAt(s, rows[j].pos - start - 2 + ext)
  {
    var ext, offset, size := LeftExtension(start), Offset(start), BufferSize(s);
    SnvRowsTargets(hits, s, keepZero, PlusMask(s, 1, 0, size), MinusMask(s, 1, 0, size), 0, ext, offset);
  }

  predicate Ascending(xs: seq<nat>) {
    forall i, j :: 0 <= i < j < |xs| ==> xs[i] < xs[j]
  }

  /** The sites of the fill loop come by strictly increasing index, over
      any masks. */
  lemma {:induction false} SnvSitesIncreasing(keepZero: bool, tc: seq<bool>, tg: seq<bool>, total: seq<nat>, lo: nat, hi: nat)
    requires lo <= hi <= |tc| && |tg| == |tc| && |total| == |tc|
    ensures Ascending(SnvSites(keepZero, tc, tg, total, lo, hi))
    decreases hi
  {
    if hi > lo {
      var a := SnvSites(keepZero, tc, tg, total, lo, hi - 1);
      SnvSitesIncreasing(keepZero, tc, tg, total, lo, hi - 1);
      forall x | x in a ensures x < hi - 1 {
        SnvSiteMember(keepZero, tc, tg, total, lo, hi - 1, x);
      }
      var p := if (tc[hi - 1] || tg[hi - 1]) && (keepZero || total[hi - 1] > 0) then [hi - 1] else [];
      var xs := SnvSites(keepZero, tc, tg, total, lo, hi);
      assert xs == a + p;
      forall i, j | 0 <= i < j < |xs| ensures xs[i] < xs[j] {
        assert xs[i] == a[i] && a[i] in a;
        if j >= |a| {
          assert xs[j] == hi - 1;
        } else {
          assert xs[j] == a[j];
        }
      }
    }
  }

  /** Over any masks, rows come by strictly increasing position. */
  lemma SnvOverIncreasing(hits: seq<Record>, s: string, ext: nat, offset: nat, tc: seq<bool>, tg: seq<bool>, keepZero: bool)
    requires Readable(hits) && |tg| == |tc| && ext + |s| <= |tc|
    ensures var rows := SnvReportOver(hits, s, ext, offset, tc, tg, keepZero);
      forall i, j :: 0 <= i < j < |rows| ==> rows[i].pos < rows[j].pos
  {
    var total := SnvTallySeq(Total, hits, offset, tc, tg);
    var xs := SnvSites(keepZero, tc, tg, total, ext, ext + |s|);
    var rows := SnvReportOver(hits, s, ext, offset, tc, tg, keepZero);
    SnvSitesIncreasing(keepZero, tc, tg, total, ext, ext + |s|);
    forall i, j | 0 <= i < j < |rows| ensures rows[i].pos < rows[j].pos {
      assert rows[i].pos == xs[i] + offset + 1 && rows[j].pos == xs[j] + offset + 1;
    }
  }

  /** Rows come by strictly increasing position, in the report as written
      and in the corrected one. */
  lemma SnvReportIncreasing(hits: seq<Record>, s: string, start: nat, keepZero: bool)
    requires Readable(hits)
    ensures var rows := SnvReportAsWritten(hits, s, start, keepZero);
      forall i, j :: 0 <= i < j < |rows| ==> rows[i].pos < rows[j].pos
    ensures var rows := SnvReport(hits, s, start, keepZero);
      forall i, j :: 0 <= i < j < |rows| ==> rows[i].pos < rows[j].pos
  {
    var ext, offset, size := LeftExtension(start), Offset(start), BufferSize(s);
    SnvOverIncreasing(hits, s, ext, offset, PlusMask(s, 1, 0, size), MinusMask(s, 1, 0, size), keepZero);
    SnvOverIncreasing(hits, s, ext, offset, PlusMask(s, 1, ext, size), MinusMask(s, 1, ext, size), keepZero);
  }

  /** Over any masks, no row counts more matches than reads. */
  lemma SnvOverBounded(hits: seq<Record>, s: string, ext: nat, offset: nat, tc: seq<bool>, tg: seq<bool>, keepZero: bool)
    requires Readable(hits) && |tg| == |tc| && ext + |s| <= |tc|
    ensures forall row :: row in SnvReportOver(hits, s, ext, offset, tc, tg, keepZero) ==> row.matched <= row.total
  {
    var total, matched := SnvTallySeq(Total, hits, offset, tc, tg), SnvTallySeq(Matched, hits, offset, tc, tg);
    forall k | 0 <= k < |tc| ensures matched[k] <= total[k] {
      SnvTallyMatchBounded(hits, offset, tc[k], tg[k], k);
    }
  }

  /** No row counts more matches than reads, in the report as written and
      in the corrected one. */
  lemma SnvReportBounded(hits: seq<Record>, s: string, start: nat, keepZero: bool)
    requires Readable(hits)
    ensures forall row :: row in SnvReportAsWritten(hits, s, start, keepZero) ==> row.matched <= row.total
    ensures forall row :: row in SnvReport(hits, s, start, keepZero) ==> row.matched <= row.total
  {
    var ext, offset, size := LeftExtension(start), Offset(start), BufferSize(s);
    SnvOverBounded(hits, s, ext, offset, PlusMask(s, 1, 0, size), MinusMask(s, 1, 0, size), keepZero);
    SnvOverBounded(hits, s, ext, offset, PlusMask(s, 1, ext, size), MinusMask(s, 1, ext, size), keepZero);
  }

  /** The rows with a non-zero total, in order. */
  function Covered(rows: seq<SnvRow>): seq<SnvRow> {
    if rows == [] then []
    else Covered(rows[..|rows| - 1]) + (if rows[|rows| - 1].total > 0 then [rows[|rows| - 1]] else [])
  }

  /** The indices whose row has a non-zero total, in order. */
  function CoveredSites(xs: seq<nat>, total: seq<nat>): seq<nat> {
    if xs == [] then []
    else
      var x := xs[|xs| - 1];
      CoveredSites(xs[..|xs| - 1], total) + (if x < |total| && total[x] > 0 then [x] else [])
  }

  lemma {:induction false} SnvSitesDropZero(tc: seq<bool>, tg: seq<bool>, total: seq<nat>, lo: nat, hi: nat)
    requires lo <= hi <= |tc| && |tg| == |tc| && |total| == |tc|
    ensures SnvSites(false, tc, tg, total, lo, hi) == CoveredSites(SnvSites(true, tc, tg, total, lo, hi), total)
    decreases hi
  {
    if hi > lo {
      var a, p := SnvSites(true, tc, tg, total, lo, hi - 1), if tc[hi - 1] || tg[hi - 1] then [hi - 1] else [];
      SnvSitesDropZero(tc, tg, total, lo, hi - 1);
      if p != [] {
        assert (a + p)[..|a + p| - 1] == a;
      } else {
        assert a + p == a;
      }
    }
  }

  lemma {:induction false} SnvRowsCovered(xs: seq<nat>, matched: seq<nat>, total: seq<nat>, offset: nat)
    ensures SnvRows(CoveredSites(xs, total), matched, total, offset) == Covered(SnvRows(xs, matched, total, offset))
  {
    if xs != [] {
      var p, x := xs[..|xs| - 1], xs[|xs| - 1];
      var q := if x < |total| && total[x] > 0 then [x] else [];
      SnvRowsCovered(p, matched, total, offset);
      SnvRowsAppend(CoveredSites(p, total), q, matched, total, offset);
      var all := SnvRows(xs, matched, total, offset);
      assert all[..|all| - 1] == SnvRows(p, matched, total, offset);
    }
  }

  /** Over any masks, without returnZero the report is the full report less
      its rows with no covering read. */
  lemma SnvOverDropsZeroRows(hits: seq<Record>, s: string, ext: nat, offset: nat, tc: seq<bool>, tg: seq<bool>)
    requires Readable(hits) && |tg| == |tc| && ext + |s| <= |tc|
    ensures SnvReportOver(hits, s, ext, offset, tc, tg, false) == Covered(SnvReportOver(hits, s, ext, offset, tc, tg, true))
  {
    var total := SnvTallySeq(Total, hits, offset, tc, tg);
    SnvSitesDropZero(tc, tg, total, ext, ext + |s|);
    SnvRowsCovered(SnvSites(true, tc, tg, total, ext, ext + |s|), SnvTallySeq(Matched, hits, offset, tc, tg), total, offset);
  }

  /** Without returnZero the report is the full report less its rows with
      no covering read, in the report as written and in the corrected one. */
  lemma SnvReportDropsZeroRows(hits: seq<Record>, s: string, start: nat)
    requires Readable(hits)
    ensures SnvReportAsWritten(hits, s, start, false) == Covered(SnvReportAsWritten(hits, s, start, true))
    ensures SnvReport(hits, s, start, false) == Covered(SnvReport(hits, s, start, true))
  {
    var ext, offset, size := LeftExtension(start), Offset(start), BufferSize(s);
    SnvOverDropsZeroRows(hits, s, ext, offset, PlusMask(s, 1, 0, size), MinusMask(s, 1, 0, size));
    SnvOverDropsZeroRows(hits, s, ext, offset, PlusMask(s, 1, ext, size), MinusMask(s, 1, ext, size));
  }

  /** The scan as written marks a CpG at its string index while the report
      loop scans array indices from leftextension on. For the region "CG"
      starting at 1-based position 2 (leftextension 1), the report with
      returnZero holds one row, at position 2 where the reference has its
      C, while nTarget is 2: the row for the C is lost, the G row stands at
      the C, and one of the two allocated result entries is never written. */
  lemma AsWrittenShiftsTargets(hits: seq<Record>)
    requires Readable(hits)
    ensures var rows := SnvReportAsWritten(hits, "CG", 1, true);
      |rows| == 1 && rows[0].pos == 2 && NOutput("CG", 1) == 2
  {
    var size := BufferSize("CG");
    var tc, tg := PlusMask("CG", 1, 0, size), MinusMask("CG", 1, 0, size);
    var total := SnvTallySeq(Total, hits, 0, tc, tg);
    assert CpGAt("CG", 0) && !CpGAt("CG", 1) && !CpGAt("CG", -1);
    assert !tc[1] && tg[1] && !tc[2] && !tg[2];
    assert SnvSites(true, tc, tg, total, 1, 3) == [1] by {
      assert SnvSites(true, tc, tg, total, 1, 1) == [];
      assert SnvSites(true, tc, tg, total, 1, 2) == [1];
    }
    assert CountCpG("CG", 2) == 1 by {
      assert CountCpG("CG", 0) == 0;
      assert CountCpG("CG", 1) == 1;
    }
  }
}
