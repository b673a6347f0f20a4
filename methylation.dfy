/** quantify_methylation: bisulfite conversion counts at target cytosines.
    A C on the plus strand that reads as C was protected by methylation, one
    that reads as T was converted; on the minus strand the same events read
    as G and A. Counts are kept per array index of padded per-region arrays
    and reported per marked position. */
module Methylation {
  import opened Bam
  import opened Targets

  /** The four counter arrays: total and methylated events, plus and minus
      strand (Tp, Mp, Tm, Mm). */
  datatype Counter = TotalPlus | MethPlus | TotalMinus | MethMinus

  /** The increment one record makes to counter c at array index k, marked
      being the mask entry there (outputPlus for the plus counters,
      outputMinus for the minus counters). A forward read counts C and T
      at plus targets, a reverse read G and A at minus targets; the
      methylated counters count only C, respectively G. */
  function Inc(c: Counter, h: Record, offset: nat, marked: bool, k: int): nat
    requires RefLen(h.cigar) <= |h.bases|
  {
    if !(marked && Covers(h, offset, k)) then 0
    else
      var b := BaseAt(h, offset, k);
      match c
      case TotalPlus => if !h.reverse && (b == BaseC || b == BaseT) then 1 else 0
      case MethPlus => if !h.reverse && b == BaseC then 1 else 0
      case TotalMinus => if h.reverse && (b == BaseG || b == BaseA) then 1 else 0
      case MethMinus => if h.reverse && b == BaseG then 1 else 0
  }

  predicate Readable(hits: seq<Record>) {
    forall h :: h in hits ==> RefLen(h.cigar) <= |h.bases|
  }

  /** Counter c at index k after the records were counted from zero. */
  function Tally(c: Counter, hits: seq<Record>, offset: nat, marked: bool, k: int): nat
    requires Readable(hits)
  {
    if hits == [] then 0
    else Tally(c, hits[..|hits| - 1], offset, marked, k) + Inc(c, hits[|hits| - 1], offset, marked, k)
  }

  /** Counting two batches of records one after the other adds their tallies. */
  lemma {:induction false} TallyAppend(c: Counter, a: seq<Record>, b: seq<Record>, offset: nat, marked: bool, k: int)
    requires Readable(a) && Readable(b)
    ensures Readable(a + b)
    ensures Tally(c, a + b, offset, marked, k) == Tally(c, a, offset, marked, k) + Tally(c, b, offset, marked, k)
    decreases |b|
  {
    if b == [] {
      assert a + b == a;
    } else {
      var p := b[..|b| - 1];
      TallyAppend(c, a, p, offset, marked, k);
      assert (a + b)[..|a + b| - 1] == a + p;
    }
  }

  /** Methylated events are a subset of all events at every position. */
  lemma {:induction false} TallyMethBounded(hits: seq<Record>, offset: nat, marked: bool, k: int)
    requires Readable(hits)
    ensures Tally(MethPlus, hits, offset, marked, k) <= Tally(TotalPlus, hits, offset, marked, k)
    ensures Tally(MethMinus, hits, offset, marked, k) <= Tally(TotalMinus, hits, offset, marked, k)
  {
    if hits != [] {
      TallyMethBounded(hits[..|hits| - 1], offset, marked, k);
    }
  }

  /** Forward reads never touch the minus counters, reverse reads never the
      plus counters, and nothing is counted at an unmarked index. */
  lemma {:induction false} TallyStrands(hits: seq<Record>, offset: nat, marked: bool, k: int)
    requires Readable(hits)
    ensures (forall h :: h in hits ==> h.reverse) ==> Tally(TotalPlus, hits, offset, marked, k) == 0
    ensures (forall h :: h in hits ==> !h.reverse) ==> Tally(TotalMinus, hits, offset, marked, k) == 0
    ensures !marked ==> Tally(TotalPlus, hits, offset, marked, k) == 0 && Tally(TotalMinus, hits, offset, marked, k) == 0
  {
    if hits != [] {
      var p := hits[..|hits| - 1];
      assert forall h :: h in p ==> h in hits;
      TallyStrands(p, offset, marked, k);
    }
  }

  function Flatten(files: seq<seq<Record>>): seq<Record> {
    if files == [] then [] else Flatten(files[..|files| - 1]) + files[|files| - 1]
  }

  /** One output row: 1-based position, strand, total and methylated count
      (the chromosome column is the region's name on every row). */
  datatype MethRow = MethRow(pos: int, strand: Strand, t: nat, m: nat)

  /** The row the fill loop writes for a site: position index + offset + 1;
      for a '*' row the plus counts at i and the minus counts at i + 1. */
  function RowAt(x: Site, tp: seq<nat>, mp: seq<nat>, tm: seq<nat>, mm: seq<nat>, offset: nat): MethRow {
    MethRow(x.idx + offset + 1, x.strand, SiteTotal(x, tp, tm), SiteTotal(x, mp, mm))
  }

  function Rows(xs: seq<Site>, tp: seq<nat>, mp: seq<nat>, tm: seq<nat>, mm: seq<nat>, offset: nat): (r: seq<MethRow>)
    ensures |r| == |xs|
  {
    seq(|xs|, j requires 0 <= j < |xs| => RowAt(xs[j], tp, mp, tm, mm, offset))
  }

  lemma RowsAppend(a: seq<Site>, b: seq<Site>, tp: seq<nat>, mp: seq<nat>, tm: seq<nat>, mm: seq<nat>, offset: nat)
    ensures Rows(a + b, tp, mp, tm, mm, offset) == Rows(a, tp, mp, tm, mm, offset) + Rows(b, tp, mp, tm, mm, offset)
  {
    var l, r := Rows(a + b, tp, mp, tm, mm, offset), Rows(a, tp, mp, tm, mm, offset) + Rows(b, tp, mp, tm, mm, offset);
    forall j | 0 <= j < |l| ensures l[j] == r[j] {
      if j >= |a| {
        assert (a + b)[j] == b[j - |a|];
      }
    }
  }

  /** The counter arrays of one region, with their masks and offset. */
  class MethCounters {
    const Tp: array<nat>
    const Mp: array<nat>
    const Tm: array<nat>
    const Mm: array<nat>
    const op: array<bool>
    const om: array<bool>
    const offset: nat

    /** The records counted so far. */
    ghost var counted: seq<Record>

    /** Equal lengths and six distinct arrays. */
    ghost predicate Shape() {
      && Tp.Length == op.Length && Mp.Length == op.Length && Tm.Length == op.Length
      && Mm.Length == op.Length && om.Length == op.Length
      && Tp != Mp && Tp != Tm && Tp != Mm && Mp != Tm && Mp != Mm && Tm != Mm
    }

    /** Every counter holds the tally of the records counted so far. */
    ghost predicate Valid()
      reads this, Tp, Mp, Tm, Mm, op, om
    {
      && Shape() && Readable(counted)
      && forall k :: 0 <= k < op.Length ==>
        && Tp[k] == Tally(TotalPlus, counted, offset, op[k], k)
        && Mp[k] == Tally(MethPlus, counted, offset, op[k], k)
        && Tm[k] == Tally(TotalMinus, counted, offset, om[k], k)
        && Mm[k] == Tally(MethMinus, counted, offset, om[k], k)
    }

    constructor (op: array<bool>, om: array<bool>, offset: nat)
      requires op.Length == om.Length
      ensures Valid() && this.op == op && this.om == om && this.offset == offset && counted == []
      ensures fresh(Tp) && fresh(Mp) && fresh(Tm) && fresh(Mm)
    {
      this.op := op;
      this.om := om;
      this.offset := offset;
      Tp := new nat[op.Length](_ => 0);
      Mp := new nat[op.Length](_ => 0);
      Tm := new nat[op.Length](_ => 0);
      Mm := new nat[op.Length](_ => 0);
      counted := [];
    }

    /** addHitToCounts: walk the reference positions of the record with the
        read index in lock-step and count the base read at every target. */
    method AddHitToCounts(h: Record)
      requires Valid() && Fits(h, offset, op.Length)
      modifies this, Tp, Mp, Tm, Mm
      ensures Valid() && counted == old(counted) + [h]
    {
      if h.reverse {
        CountMinusStrand(h);
      } else {
        CountPlusStrand(h);
      }
      counted := counted + [h];
      assert counted[..|counted| - 1] == old(counted);
    }

    /** The records bam_fetch hands to addHitToCounts for one file, in order. */
    method AddHits(hits: seq<Record>)
      requires Valid() && forall h :: h in hits ==> Fits(h, offset, op.Length)
      modifies this, Tp, Mp, Tm, Mm
      ensures Valid() && counted == old(counted) + hits
    {
      var i := 0;
      while i < |hits|
        invariant i <= |hits| && Valid() && counted == old(counted) + hits[..i]
      {
        AddHitToCounts(hits[i]);
        assert hits[..i + 1] == hits[..i] + [hits[i]];
        i := i + 1;
      }
      assert hits[..i] == hits;
    }

    /** The loop over the input files: each file's records for the region,
        one file after the other. */
    method AddFiles(files: seq<seq<Record>>)
      requires Valid() && forall f, h :: f in files && h in f ==> Fits(h, offset, op.Length)
      modifies this, Tp, Mp, Tm, Mm
      ensures Valid() && counted == old(counted) + Flatten(files)
    {
      var f := 0;
      while f < |files|
        invariant f <= |files| && Valid() && counted == old(counted) + Flatten(files[..f])
      {
        assert forall h :: h in files[f] ==> Fits(h, offset, op.Length);
        AddHits(files[f]);
        assert files[..f + 1][..f] == files[..f];
        f := f + 1;
      }
      assert files[..f] == files;
    }

    /** The arrays as sequences: the tallies of the records counted. */
    lemma Tallies()
      requires Valid()
      ensures Tp[..] == TallySeq(TotalPlus, counted, offset, op[..]) && Mp[..] == TallySeq(MethPlus, counted, offset, op[..])
      ensures Tm[..] == TallySeq(TotalMinus, counted, offset, om[..]) && Mm[..] == TallySeq(MethMinus, counted, offset, om[..])
    {
    }

    /** The minus-strand loop of addHitToCounts: at every outputMinus target
        a G is counted as methylated and total, an A as total only. */
    method CountMinusStrand(h: Record)
      requires Shape() && Fits(h, offset, op.Length) && h.reverse
      modifies Tm, Mm
      ensures forall k :: 0 <= k < op.Length ==>
        && Tm[k] == old(Tm[k]) + Inc(TotalMinus, h, offset, om[k], k)
        && Mm[k] == old(Mm[k]) + Inc(MethMinus, h, offset, om[k], k)
    {
      // i is unsigned: when pos < offset, pos - offset wraps above
      // calend - offset and the loop makes no iteration.
      if offset <= h.pos {
        var i: nat := h.pos - offset;
        var j: nat := 0;
        var e := CalEnd(h) - offset;
        while i < e
          invariant h.pos - offset <= i <= e && j == i - (h.pos - offset)
          invariant forall k :: 0 <= k < i ==>
            Tm[k] == old(Tm[k]) + Inc(TotalMinus, h, offset, om[k], k) && Mm[k] == old(Mm[k]) + Inc(MethMinus, h, offset, om[k], k)
          invariant forall k :: i <= k < op.Length ==> Tm[k] == old(Tm[k]) && Mm[k] == old(Mm[k])
        {
          CountMinusAt(h, i);
          i, j := i + 1, j + 1;
        }
      }
    }

    /** The plus-strand loop of addHitToCounts: at every outputPlus target a
        C is counted as methylated and total, a T as total only. */
    method CountPlusStrand(h: Record)
      requires Shape() && Fits(h, offset, op.Length) && !h.reverse
      modifies Tp, Mp
      ensures forall k :: 0 <= k < op.Length ==>
        && Tp[k] == old(Tp[k]) + Inc(TotalPlus, h, offset, op[k], k)
        && Mp[k] == old(Mp[k]) + Inc(MethPlus, h, offset, op[k], k)
    {
      // i is unsigned: when pos < offset, pos - offset wraps above
      // calend - offset and the loop makes no iteration.
      if offset <= h.pos {
        var i: nat := h.pos - offset;
        var j: nat := 0;
        var e := CalEnd(h) - offset;
        while i < e
          invariant h.pos - offset <= i <= e && j == i - (h.pos - offset)
          invariant forall k :: 0 <= k < i ==>
            Tp[k] == old(Tp[k]) + Inc(TotalPlus, h, offset, op[k], k) && Mp[k] == old(Mp[k]) + Inc(MethPlus, h, offset, op[k], k)
          invariant forall k :: i <= k < op.Length ==> Tp[k] == old(Tp[k]) && Mp[k] == old(Mp[k])
        {
          CountPlusAt(h, i);
          i, j := i + 1, j + 1;
        }
      }
    }

    /** One step of the minus-strand loop, at array index i. */
    method CountMinusAt(h: Record, i: nat)
      requires Shape() && Fits(h, offset, op.Length) && Covers(h, offset, i) && h.reverse
      modifies Tm, Mm
      ensures Tm[i] == old(Tm[i]) + Inc(TotalMinus, h, offset, om[i], i)
      ensures Mm[i] == old(Mm[i]) + Inc(MethMinus, h, offset, om[i], i)
      ensures forall k :: 0 <= k < op.Length && k != i ==> Tm[k] == old(Tm[k]) && Mm[k] == old(Mm[k])
    {
      var b := h.bases[i - (h.pos - offset)];
      assert BaseAt(h, offset, i) == b;
      if om[i] {
        if b == BaseG {
          Tm[i] := Tm[i] + 1;
          Mm[i] := Mm[i] + 1;
        } else if b == BaseA {
          Tm[i] := Tm[i] + 1;
        }
      }
    }

    /** One step of the plus-strand loop, at array index i. */
    method CountPlusAt(h: Record, i: nat)
      requires Shape() && Fits(h, offset, op.Length) && Covers(h, offset, i) && !h.reverse
      modifies Tp, Mp
      ensures Tp[i] == old(Tp[i]) + Inc(TotalPlus, h, offset, op[i], i)
      ensures Mp[i] == old(Mp[i]) + Inc(MethPlus, h, offset, op[i], i)
      ensures forall k :: 0 <= k < op.Length && k != i ==> Tp[k] == old(Tp[k]) && Mp[k] == old(Mp[k])
    {
      var b := h.bases[i - (h.pos - offset)];
      assert BaseAt(h, offset, i) == b;
      if op[i] {
        if b == BaseC {
          Tp[i] := Tp[i] + 1;
          Mp[i] := Mp[i] + 1;
        } else if b == BaseT {
          Tp[i] := Tp[i] + 1;
        }
      }
    }

    /** The re-count loop that runs when zero rows are dropped: one count
        per index with a marked, non-zero strand (modes 1 and 2), one per
        plus mark whose collapsed total is non-zero (mode 0). It never
        exceeds the number of rows the fill loop emits, and equals it when
        no index is marked on both strands. */
    method CountRows(mode: int, lo: nat, n: nat) returns (j: nat)
      requires Shape() && lo + n < op.Length && (mode == 0 || mode == 1 || mode == 2)
      ensures j <= |ReportSites(mode, false, op[..], om[..], Tp[..], Tm[..], lo, n)|
      ensures mode == 0 || Disjoint(op[..], om[..]) ==> j == |ReportSites(mode, false, op[..], om[..], Tp[..], Tm[..], lo, n)|
    {
      ghost var P, M, TP, TM := op[..], om[..], Tp[..], Tm[..];
      j := 0;
      if mode == 2 || mode == 1 {
        var i := lo;
        while i < lo + n
          invariant lo <= i <= lo + n
          invariant j <= |SeparateSites(false, P, M, TP, TM, lo, i)|
          invariant Disjoint(P, M) ==> j == |SeparateSites(false, P, M, TP, TM, lo, i)|
        {
          assert |SeparateSites(false, P, M, TP, TM, lo, i + 1)|
              == |SeparateSites(false, P, M, TP, TM, lo, i)| + |SitesAt(false, P, M, TP, TM, i)|;
          assert Disjoint(P, M) ==> !(P[i] && M[i]);
          PreCountStep(P, M, TP, TM, i);
          if (op[i] && Tp[i] > 0) || (om[i] && Tm[i] > 0) {
            j := j + 1;
          }
          i := i + 1;
        }
      } else {
        var i := lo;
        while i < lo + n - 1
          invariant lo <= i && (i <= lo + n - 1 || i == lo)
          invariant j == |CollapsedSites(false, P, TP, TM, lo, i)|
        {
          if op[i] && (Tp[i] > 0 || Tm[i + 1] > 0) {
            j := j + 1;
          }
          i := i + 1;
        }
      }
    }

    /** The fill loop of modes 1 and 2. */
    method ReportSeparate(keepZero: bool, lo: nat, n: nat) returns (rows: seq<MethRow>)
      requires Shape() && lo + n < op.Length
      ensures rows == Rows(SeparateSites(keepZero, op[..], om[..], Tp[..], Tm[..], lo, lo + n), Tp[..], Mp[..], Tm[..], Mm[..], offset)
    {
      ghost var P, M, TP, MP, TM, MM := op[..], om[..], Tp[..], Mp[..], Tm[..], Mm[..];
      rows := [];
      var i := lo;
      while i < lo + n
        invariant lo <= i <= lo + n
        invariant rows == Rows(SeparateSites(keepZero, P, M, TP, TM, lo, i), TP, MP, TM, MM, offset)
      {
        ghost var before := SeparateSites(keepZero, P, M, TP, TM, lo, i);
        ghost var here := SitesAt(keepZero, P, M, TP, TM, i);
        var plus, minus := [], [];
        if op[i] && (keepZero || Tp[i] > 0) {
          plus := [MethRow(i + offset + 1, Plus, Tp[i], Mp[i])];
        }
        if om[i] && (keepZero || Tm[i] > 0) {
          minus := [MethRow(i + offset + 1, Minus, Tm[i], Mm[i])];
        }
        assert rows + (plus + minus) == Rows(SeparateSites(keepZero, P, M, TP, TM, lo, i + 1), TP, MP, TM, MM, offset) by {
          assert plus + minus == Rows(here, TP, MP, TM, MM, offset);
          RowsAppend(before, here, TP, MP, TM, MM, offset);
        }
        rows := rows + (plus + minus);
        i := i + 1;
      }
    }

    /** The fill loop of mode 0: one '*' row per plus mark, adding the minus
        counts one index further on. */
    method ReportCollapsed(keepZero: bool, lo: nat, n: nat) returns (rows: seq<MethRow>)
      requires Shape() && lo + n < op.Length
      ensures rows == Rows(CollapsedSites(keepZero, op[..], Tp[..], Tm[..], lo, lo + n - 1), Tp[..], Mp[..], Tm[..], Mm[..], offset)
    {
      ghost var P, TP, MP, TM, MM := op[..], Tp[..], Mp[..], Tm[..], Mm[..];
      rows := [];
      var i := lo;
      while i < lo + n - 1
        invariant lo <= i && (i <= lo + n - 1 || i == lo)
        invariant rows == Rows(CollapsedSites(keepZero, P, TP, TM, lo, i), TP, MP, TM, MM, offset)
      {
        ghost var before := CollapsedSites(keepZero, P, TP, TM, lo, i);
        var here := [];
        if op[i] && (keepZero || Tp[i] > 0 || Tm[i + 1] > 0) {
          here := [MethRow(i + offset + 1, Both, Tp[i] + Tm[i + 1], Mp[i] + Mm[i + 1])];
        }
        ghost var sites := if P[i] && (keepZero || TP[i] > 0 || TM[i + 1] > 0) then [Site(i, Both)] else [];
        assert rows + here == Rows(CollapsedSites(keepZero, P, TP, TM, lo, i + 1), TP, MP, TM, MM, offset) by {
          assert here == Rows(sites, TP, MP, TM, MM, offset);
          RowsAppend(before, sites, TP, MP, TM, MM, offset);
        }
        rows := rows + here;
        i := i + 1;
      }
    }

    /** The fill loop: the rows of the report, in order. */
    method Report(mode: int, keepZero: bool, lo: nat, n: nat) returns (rows: seq<MethRow>)
      requires Shape() && lo + n < op.Length
      ensures rows == Rows(ReportSites(mode, keepZero, op[..], om[..], Tp[..], Tm[..], lo, n), Tp[..], Mp[..], Tm[..], Mm[..], offset)
    {
      if mode == 0 {
        rows := ReportCollapsed(keepZero, lo, n);
      } else {
        rows := ReportSeparate(keepZero, lo, n);
      }
    }
  }

  // ---------------------------------------------------------------------
  // The report of one region

  /** Counter c over the whole array, after the records were counted. */
  function TallySeq(c: Counter, hits: seq<Record>, offset: nat, marks: seq<bool>): (r: seq<nat>)
    requires Readable(hits)
    ensures |r| == |marks|
  {
    seq(|marks|, k requires 0 <= k < |marks| => Tally(c, hits, offset, marks[k], k))
  }

  /** The rows quantify_methylation returns for the reference string s of a
      region starting at 0-based start, after counting the records hits. */
  function MethReport(hits: seq<Record>, s: string, start: nat, mode: int, keepZero: bool): seq<MethRow>
    requires Readable(hits)
  {
    var ext, offset, size := LeftExtension(start), Offset(start), BufferSize(s);
    var op, om := PlusMask(s, mode, ext, size), MinusMask(s, mode, ext, size);
    var tp, tm := TallySeq(TotalPlus, hits, offset, op), TallySeq(TotalMinus, hits, offset, om);
    Rows(ReportSites(mode, keepZero, op, om, tp, tm, ext, |s|),
         tp, TallySeq(MethPlus, hits, offset, op), tm, TallySeq(MethMinus, hits, offset, om), offset)
  }

  /** The counting phase of quantify_methylation: fresh zeroed counters over
      the masks, then every record of every file counted. */
  method CountRegion(files: seq<seq<Record>>, op: array<bool>, om: array<bool>, offset: nat) returns (c: MethCounters)
    requires op.Length == om.Length
    requires forall f, h :: f in files && h in f ==> Fits(h, offset, op.Length)
    ensures c.Shape() && c.op == op && c.om == om && c.offset == offset
    ensures Readable(Flatten(files))
    ensures c.Tp[..] == TallySeq(TotalPlus, Flatten(files), offset, op[..]) && c.Mp[..] == TallySeq(MethPlus, Flatten(files), offset, op[..])
    ensures c.Tm[..] == TallySeq(TotalMinus, Flatten(files), offset, om[..]) && c.Mm[..] == TallySeq(MethMinus, Flatten(files), offset, om[..])
  {
    c := new MethCounters(op, om, offset);
    c.AddFiles(files);
    assert c.counted == Flatten(files) by {
      assert [] + Flatten(files) == Flatten(files);
    }
    c.Tallies();
  }

  /** quantify_methylation after the mask scan: count, re-count when zero
      rows are dropped, allocate nOutput rows and fill them. */
  method ReportRegion(files: seq<seq<Record>>, s: string, start: nat, mode: int, keepZero: bool,
                      op: array<bool>, om: array<bool>, nMarked: nat) returns (rows: seq<MethRow>)
    requires mode == 0 || mode == 1 || mode == 2
    requires op.Length == BufferSize(s) && om.Length == BufferSize(s)
    requires op[..] == PlusMask(s, mode, LeftExtension(start), BufferSize(s))
    requires om[..] == MinusMask(s, mode, LeftExtension(start), BufferSize(s))
    requires nMarked == NOutput(s, mode)
    requires forall f, h :: f in files && h in f ==> Fits(h, Offset(start), BufferSize(s))
    ensures Readable(Flatten(files)) && rows == MethReport(Flatten(files), s, start, mode, keepZero)
  {
    var ext := LeftExtension(start);
    var nOutput := nMarked;
    ghost var P, M := op[..], om[..];
    ghost var hits := Flatten(files);
    var counters := CountRegion(files, op, om, start - ext);
    ghost var tp, mp, tm, mm := counters.Tp[..], counters.Mp[..], counters.Tm[..], counters.Mm[..];
    if !keepZero {
      nOutput := counters.CountRows(mode, ext, |s|);
    }
    rows := counters.Report(mode, keepZero, ext, |s|);
    // The result vectors are allocated with nOutput entries: the fill loop
    // writes exactly that many.
    assert |rows| == nOutput by {
      if keepZero {
        RowCountIsNOutput(s, mode, P, M, tp, tm, ext);
      } else {
        assert Disjoint(P, M) by {
          forall k | 0 <= k < |P| ensures !(P[k] && M[k]) {
            MarksDisjoint(s, mode, ext, k);
          }
        }
      }
    }
    MethReportOf(hits, s, start, mode, keepZero, P, M, tp, mp, tm, mm);
  }

  /** quantify_methylation for one region: files holds, per input file, the
      records bam_fetch delivers for the region. An unknown mode is an error;
      otherwise the rows are those of MethReport. */
  method QuantifyMethylation(files: seq<seq<Record>>, s: string, regionStart: int, mode: int, keepZero: bool)
    returns (r: Result<seq<MethRow>>)
    requires regionStart >= 1
    requires forall f, h :: f in files && h in f ==> Fits(h, Offset(regionStart - 1), BufferSize(s))
    ensures r.Err? <==> !(mode == 0 || mode == 1 || mode == 2)
    ensures r.Err? ==> r.msg == ModeError(mode)
    ensures r.Ok? ==> Readable(Flatten(files)) && r.value == MethReport(Flatten(files), s, regionStart - 1, mode, keepZero)
  {
    var start := regionStart - 1;
    var op, om, marked := NewMasks(s, mode, LeftExtension(start));
    if marked.Err? {
      return Err(marked.msg);
    }
    var rows := ReportRegion(files, s, start, mode, keepZero, op, om, marked.value);
    r := Ok(rows);
  }

  lemma MethReportOf(hits: seq<Record>, s: string, start: nat, mode: int, keepZero: bool,
                     op: seq<bool>, om: seq<bool>, tp: seq<nat>, mp: seq<nat>, tm: seq<nat>, mm: seq<nat>)
    requires Readable(hits)
    requires op == PlusMask(s, mode, LeftExtension(start), BufferSize(s)) && om == MinusMask(s, mode, LeftExtension(start), BufferSize(s))
    requires tp == TallySeq(TotalPlus, hits, Offset(start), op) && mp == TallySeq(MethPlus, hits, Offset(start), op)
    requires tm == TallySeq(TotalMinus, hits, Offset(start), om) && mm == TallySeq(MethMinus, hits, Offset(start), om)
    ensures MethReport(hits, s, start, mode, keepZero)
         == Rows(ReportSites(mode, keepZero, op, om, tp, tm, LeftExtension(start), |s|), tp, mp, tm, mm, Offset(start))
  {
  }

  // ---------------------------------------------------------------------
  // What the report promises

  /** The rows with a non-zero total, in order. */
  function Positive(rows: seq<MethRow>): (r: seq<MethRow>)
  {
    if rows == [] then []
    else Positive(rows[..|rows| - 1]) + (if rows[|rows| - 1].t > 0 then [rows[|rows| - 1]] else [])
  }

  lemma {:induction false} RowsNonZero(xs: seq<Site>, tp: seq<nat>, mp: seq<nat>, tm: seq<nat>, mm: seq<nat>, offset: nat)
    ensures Rows(NonZero(xs, tp, tm), tp, mp, tm, mm, offset) == Positive(Rows(xs, tp, mp, tm, mm, offset))
  {
    if xs != [] {
      var p, x := xs[..|xs| - 1], xs[|xs| - 1];
      var q := if SiteTotal(x, tp, tm) > 0 then [x] else [];
      RowsNonZero(p, tp, mp, tm, mm, offset);
      RowsAppend(NonZero(p, tp, tm), q, tp, mp, tm, mm, offset);
      assert Rows(xs, tp, mp, tm, mm, offset)[..|xs| - 1] == Rows(p, tp, mp, tm, mm, offset);
    }
  }

  /** Without returnZero the report is the full report less its zero-total
      rows. */
  lemma MethReportDropsZeroRows(hits: seq<Record>, s: string, start: nat, mode: int)
    requires Readable(hits)
    ensures MethReport(hits, s, start, mode, false) == Positive(MethReport(hits, s, start, mode, true))
  {
    var ext, offset, size := LeftExtension(start), Offset(start), BufferSize(s);
    var op, om := PlusMask(s, mode, ext, size), MinusMask(s, mode, ext, size);
    var tp, tm := TallySeq(TotalPlus, hits, offset, op), TallySeq(TotalMinus, hits, offset, om);
    var mp, mm := TallySeq(MethPlus, hits, offset, op), TallySeq(MethMinus, hits, offset, om);
    DropZeroIsFilter(mode, op, om, tp, tm, ext, |s|);
    RowsNonZero(ReportSites(mode, true, op, om, tp, tm, ext, |s|), tp, mp, tm, mm, offset);
  }

  /** With returnZero the report has one row per target: nOutput rows. */
  lemma MethReportRowCount(hits: seq<Record>, s: string, start: nat, mode: int)
    requires Readable(hits) && (mode == 0 || mode == 1 || mode == 2)
    ensures |MethReport(hits, s, start, mode, true)| == NOutput(s, mode)
  {
    var ext, offset, size := LeftExtension(start), Offset(start), BufferSize(s);
    var op, om := PlusMask(s, mode, ext, size), MinusMask(s, mode, ext, size);
    RowCountIsNOutput(s, mode, op, om, TallySeq(TotalPlus, hits, offset, op), TallySeq(TotalMinus, hits, offset, om), ext);
  }

  /** Reference string index i is a target reported on the given strand: a
      C on '+' and a G on '-' in mode 2, the C of a CpG on '+' and its G on
      '-' in mode 1, the C of a CpG on '*' in mode 0. */
  predicate TargetAt(s: string, mode: int, strand: Strand, i: int) {
    match strand
    case Plus => mode != 0 && (if mode == 2 then 0 <= i < |s| && IsC(s[i]) else CpGAt(s, i))
    case Minus => mode != 0 && (if mode == 2 then 0 <= i < |s| && IsG(s[i]) else CpGAt(s, i - 1))
    case Both => mode == 0 && CpGAt(s, i)
  }

  lemma SiteTargets(s: string, mode: int, keepZero: bool, op: seq<bool>, om: seq<bool>, tp: seq<nat>, tm: seq<nat>, ext: nat)
    requires mode == 0 || mode == 1 || mode == 2
    requires |op| == BufferSize(s) && ext <= MaxReadLength && Masks(s, mode, ext, op, om) && |tp| == |op| && |tm| == |op|
    ensures forall x :: x in ReportSites(mode, keepZero, op, om, tp, tm, ext, |s|) ==> TargetAt(s, mode, x.strand, x.idx - ext)
  {
    if mode == 0 {
      CollapsedTargets(s, keepZero, op, om, tp, tm, ext);
    } else {
      SeparateTargets(s, mode, keepZero, op, om, tp, tm, ext);
    }
  }

  lemma CollapsedTargets(s: string, keepZero: bool, op: seq<bool>, om: seq<bool>, tp: seq<nat>, tm: seq<nat>, ext: nat)
    requires |op| == BufferSize(s) && ext <= MaxReadLength && Masks(s, 0, ext, op, om) && |tp| == |op| && |tm| == |op|
    ensures forall x :: x in CollapsedSites(keepZero, op, tp, tm, ext, ext + |s| - 1) ==> TargetAt(s, 0, x.strand, x.idx - ext)
  {
    CollapsedSitesMembers(keepZero, op, tp, tm, ext, ext + |s| - 1);
    forall x | x in CollapsedSites(keepZero, op, tp, tm, ext, ext + |s| - 1) ensures TargetAt(s, 0, x.strand, x.idx - ext) {
      assert op[x.idx] == PlusMark(s, 0, ext, x.idx);
    }
  }

  lemma SeparateTargets(s: string, mode: int, keepZero: bool, op: seq<bool>, om: seq<bool>, tp: seq<nat>, tm: seq<nat>, ext: nat)
    requires mode == 1 || mode == 2
    requires |op| == BufferSize(s) && ext <= MaxReadLength && Masks(s, mode, ext, op, om) && |tp| == |op| && |tm| == |op|
    ensures forall x :: x in SeparateSites(keepZero, op, om, tp, tm, ext, ext + |s|) ==> TargetAt(s, mode, x.strand, x.idx - ext)
  {
    forall x | x in SeparateSites(keepZero, op, om, tp, tm, ext, ext + |s|) ensures TargetAt(s, mode, x.strand, x.idx - ext) {
      SeparateSiteMember(keepZero, op, om, tp, tm, ext, ext + |s|, x);
      assert op[x.idx] == PlusMark(s, mode, ext, x.idx) && om[x.idx] == MinusMark(s, mode, ext, x.idx);
    }
  }

  /** Report sites come by strictly increasing index. */
  lemma SitesIncreasing(s: string, mode: int, keepZero: bool, op: seq<bool>, om: seq<bool>, tp: seq<nat>, tm: seq<nat>, ext: nat)
    requires mode == 0 || mode == 1 || mode == 2
    requires |op| == BufferSize(s) && ext <= MaxReadLength && Masks(s, mode, ext, op, om) && |tp| == |op| && |tm| == |op|
    ensures var xs := ReportSites(mode, keepZero, op, om, tp, tm, ext, |s|);
      forall i, j :: 0 <= i < j < |xs| ==> xs[i].idx < xs[j].idx
  {
    if mode == 0 {
      var xs := CollapsedSites(keepZero, op, tp, tm, ext, ext + |s| - 1);
      CollapsedSitesOrdered(keepZero, op, tp, tm, ext, ext + |s| - 1);
      CollapsedSitesMembers(keepZero, op, tp, tm, ext, ext + |s| - 1);
      forall i, j | 0 <= i < j < |xs| ensures xs[i].idx < xs[j].idx {
        assert Before(xs[i], xs[j]);
        assert xs[i] in xs;
      }
    } else {
      assert Disjoint(op, om) by {
        forall k | 0 <= k < |op| ensures !(op[k] && om[k]) {
          MarksDisjoint(s, mode, ext, k);
        }
      }
      SeparateIncreasing(keepZero, op, om, tp, tm, ext, ext + |s|);
      assert ReportSites(mode, keepZero, op, om, tp, tm, ext, |s|) == SeparateSites(keepZero, op, om, tp, tm, ext, ext + |s|);
    }
  }

  lemma SeparateIncreasing(keepZero: bool, op: seq<bool>, om: seq<bool>, tp: seq<nat>, tm: seq<nat>, lo: nat, hi: nat)
    requires lo <= hi <= |op| && |om| == |op| && |tp| == |op| && |tm| == |op| && Disjoint(op, om)
    ensures var xs := SeparateSites(keepZero, op, om, tp, tm, lo, hi);
      forall i, j :: 0 <= i < j < |xs| ==> xs[i].idx < xs[j].idx
  {
    var xs := SeparateSites(keepZero, op, om, tp, tm, lo, hi);
    SeparateSitesOrdered(keepZero, op, om, tp, tm, lo, hi);
    SeparateSitesMembers(keepZero, op, om, tp, tm, lo, hi);
    forall i, j | 0 <= i < j < |xs| ensures xs[i].idx < xs[j].idx {
      assert Before(xs[i], xs[j]);
      assert xs[i] in xs && xs[j] in xs;
    }
  }

  /** Every row reports a target: its 1-based position minus the region's
      start is the target's 1-based index in the reference string. */
  lemma MethReportTargets(hits: seq<Record>, s: string, start: nat, mode: int, keepZero: bool)
    requires Readable(hits) && (mode == 0 || mode == 1 || mode == 2)
    ensures forall j :: 0 <= j < |MethReport(hits, s, start, mode, keepZero)| ==>
      TargetAt(s, mode, MethReport(hits, s, start, mode, keepZero)[j].strand, MethReport(hits, s, start, mode, keepZero)[j].pos - start - 1)
  {
    var ext, offset, size := LeftExtension(start), Offset(start), BufferSize(s);
    var op, om := PlusMask(s, mode, ext, size), MinusMask(s, mode, ext, size);
    var tp, tm := TallySeq(TotalPlus, hits, offset, op), TallySeq(TotalMinus, hits, offset, om);
    var mp, mm := TallySeq(MethPlus, hits, offset, op), TallySeq(MethMinus, hits, offset, om);
    var xs := ReportSites(mode, keepZero, op, om, tp, tm, ext, |s|);
    MethReportOf(hits, s, start, mode, keepZero, op, om, tp, mp, tm, mm);
    SiteTargets(s, mode, keepZero, op, om, tp, tm, ext);
    RowsTargets(MethReport(hits, s, start, mode, keepZero), xs, tp, mp, tm, mm, offset, s, mode, ext, start);
  }

  /** Rows of target sites report targets, at 1-based positions shifted by
      offset + ext. */
  lemma RowsTargets(rows: seq<MethRow>, xs: seq<Site>, tp: seq<nat>, mp: seq<nat>, tm: seq<nat>, mm: seq<nat>, offset: nat,
                    s: string, mode: int, ext: nat, start: nat)
    requires rows == Rows(xs, tp, mp, tm, mm, offset)
    requires offset + ext == start
    requires forall x :: x in xs ==> TargetAt(s, mode, x.strand, x.idx - ext)
    ensures forall j :: 0 <= j < |rows| ==> TargetAt(s, mode, rows[j].strand, rows[j].pos - start - 1)
  {
    forall j | 0 <= j < |rows| ensures TargetAt(s, mode, rows[j].strand, rows[j].pos - start - 1) {
      assert xs[j] in xs;
    }
  }

  /** No row counts more methylated than total events. */
  lemma MethReportBounded(hits: seq<Record>, s: string, start: nat, mode: int, keepZero: bool)
    requires Readable(hits)
    ensures forall row :: row in MethReport(hits, s, start, mode, keepZero) ==> row.m <= row.t
  {
    var ext, offset, size := LeftExtension(start), Offset(start), BufferSize(s);
    var op, om := PlusMask(s, mode, ext, size), MinusMask(s, mode, ext, size);
    var tp, tm := TallySeq(TotalPlus, hits, offset, op), TallySeq(TotalMinus, hits, offset, om);
    var mp, mm := TallySeq(MethPlus, hits, offset, op), TallySeq(MethMinus, hits, offset, om);
    forall k | 0 <= k < size ensures mp[k] <= tp[k] && mm[k] <= tm[k] {
      TallyMethBounded(hits, offset, op[k], k);
      TallyMethBounded(hits, offset, om[k], k);
    }
    var xs := ReportSites(mode, keepZero, op, om, tp, tm, ext, |s|);
    forall x ensures SiteTotal(x, mp, mm) <= SiteTotal(x, tp, tm) {
    }
  }

  /** Rows come out by strictly increasing position: no position is reported
      twice, because no index is a plus and a minus target at once. */
  lemma MethReportIncreasing(hits: seq<Record>, s: string, start: nat, mode: int, keepZero: bool)
    requires Readable(hits) && (mode == 0 || mode == 1 || mode == 2)
    ensures forall i, j :: 0 <= i < j < |MethReport(hits, s, start, mode, keepZero)| ==>
      MethReport(hits, s, start, mode, keepZero)[i].pos < MethReport(hits, s, start, mode, keepZero)[j].pos
  {
    var ext, offset, size := LeftExtension(start), Offset(start), BufferSize(s);
    var op, om := PlusMask(s, mode, ext, size), MinusMask(s, mode, ext, size);
    var tp, tm := TallySeq(TotalPlus, hits, offset, op), TallySeq(TotalMinus, hits, offset, om);
    var xs := ReportSites(mode, keepZero, op, om, tp, tm, ext, |s|);
    SitesIncreasing(s, mode, keepZero, op, om, tp, tm, ext);
    assert forall i, j :: 0 <= i < j < |xs| ==> xs[i].idx < xs[j].idx;
  }

  /** A row of a report lies at the site it was built from. */
  lemma RowOfSite(x: Site, xs: seq<Site>, tp: seq<nat>, mp: seq<nat>, tm: seq<nat>, mm: seq<nat>, offset: nat)
    requires x in xs
    ensures RowAt(x, tp, mp, tm, mm, offset) in Rows(xs, tp, mp, tm, mm, offset)
  {
    var j :| 0 <= j < |xs| && xs[j] == x;
    assert Rows(xs, tp, mp, tm, mm, offset)[j] == RowAt(x, tp, mp, tm, mm, offset);
  }

  /** The collapsed report is the strand-separated CpG report summed per
      CpG: with returnZero, every '*' row of mode 0 has in mode 1 the '+'
      row of its C at the same position and the '-' row of its G one base
      to the right, and its total and methylated counts are their sums.
      Conversely every '+' row of mode 1 has its '*' row in mode 0. */
  lemma ModeZeroSumsModeOne(hits: seq<Record>, s: string, start: nat)
    requires Readable(hits)
    ensures var r0, r1 := MethReport(hits, s, start, 0, true), MethReport(hits, s, start, 1, true);
      forall r :: r in r0 ==>
        (r.strand == Both &&
         exists p, q :: p in r1 && q in r1 &&
           p.pos == r.pos && p.strand == Plus && q.pos == r.pos + 1 && q.strand == Minus &&
           r.t == p.t + q.t && r.m == p.m + q.m)
    ensures var r0, r1 := MethReport(hits, s, start, 0, true), MethReport(hits, s, start, 1, true);
      forall p :: p in r1 && p.strand == Plus ==> exists r :: r in r0 && r.pos == p.pos
  {
    var ext, offset, size := LeftExtension(start), Offset(start), BufferSize(s);
    var op, om := PlusMask(s, 1, ext, size), MinusMask(s, 1, ext, size);
    assert PlusMask(s, 0, ext, size) == op;
    assert MinusMask(s, 0, ext, size) == om;
    var tp, tm := TallySeq(TotalPlus, hits, offset, op), TallySeq(TotalMinus, hits, offset, om);
    var mp, mm := TallySeq(MethPlus, hits, offset, op), TallySeq(MethMinus, hits, offset, om);
    MethReportOf(hits, s, start, 0, true, op, om, tp, mp, tm, mm);
    MethReportOf(hits, s, start, 1, true, op, om, tp, mp, tm, mm);
    MasksOf(s, 1, ext, size);
    CollapsedRowsSum(s, ext, op, om, tp, mp, tm, mm, offset);
    PlusRowsCollapsed(s, ext, op, om, tp, mp, tm, mm, offset);
  }

  /** Over the CpG masks, each collapsed row is the sum of the '+' row at
      its index and the '-' row at the next index. */
  lemma CollapsedRowsSum(s: string, ext: nat, op: seq<bool>, om: seq<bool>, tp: seq<nat>, mp: seq<nat>, tm: seq<nat>, mm: seq<nat>, offset: nat)
    requires Masks(s, 1, ext, op, om) && |op| == BufferSize(s) && ext <= MaxReadLength
    requires |tp| == |op| && |mp| == |op| && |tm| == |op| && |mm| == |op|
    ensures var r0 := Rows(ReportSites(0, true, op, om, tp, tm, ext, |s|), tp, mp, tm, mm, offset);
      var r1 := Rows(ReportSites(1, true, op, om, tp, tm, ext, |s|), tp, mp, tm, mm, offset);
      forall r :: r in r0 ==>
        (r.strand == Both &&
         exists p, q :: p in r1 && q in r1 &&
           p.pos == r.pos && p.strand == Plus && q.pos == r.pos + 1 && q.strand == Minus &&
           r.t == p.t + q.t && r.m == p.m + q.m)
  {
    var xs0 := CollapsedSites(true, op, tp, tm, ext, ext + |s| - 1);
    var xs1 := SeparateSites(true, op, om, tp, tm, ext, ext + |s|);
    var r0, r1 := Rows(xs0, tp, mp, tm, mm, offset), Rows(xs1, tp, mp, tm, mm, offset);
    CpGMasksShifted(s, ext, op, om);
    forall r | r in r0
      ensures r.strand == Both &&
        exists p, q :: p in r1 && q in r1 &&
          p.pos == r.pos && p.strand == Plus && q.pos == r.pos + 1 && q.strand == Minus &&
          r.t == p.t + q.t && r.m == p.m + q.m
    {
      var j :| 0 <= j < |r0| && r0[j] == r;
      var p, q := CollapsedRowSplit(s, ext, op, om, tp, mp, tm, mm, offset, j);
    }
  }

  /** The G mark of a CpG follows its C mark: true of the CpG masks. */
  predicate MinusFollowsPlus(op: seq<bool>, om: seq<bool>) {
    |om| == |op| && forall k :: 0 <= k && k + 1 < |op| ==> om[k + 1] == op[k]
  }

  lemma CpGMasksShifted(s: string, ext: nat, op: seq<bool>, om: seq<bool>)
    requires Masks(s, 1, ext, op, om)
    ensures MinusFollowsPlus(op, om)
  {
    forall k | 0 <= k && k + 1 < |op| ensures om[k + 1] == op[k] {
      CpGMarksAlign(s, ext, op, om, k);
    }
  }

  /** The pair of mode-1 rows that the collapsed row j sums. */
  lemma CollapsedRowSplit(s: string, ext: nat, op: seq<bool>, om: seq<bool>, tp: seq<nat>, mp: seq<nat>, tm: seq<nat>, mm: seq<nat>,
                          offset: nat, j: nat) returns (p: MethRow, q: MethRow)
    requires MinusFollowsPlus(op, om) && |op| == BufferSize(s) && ext <= MaxReadLength
    requires |tp| == |op| && |mp| == |op| && |tm| == |op| && |mm| == |op|
    requires j < |CollapsedSites(true, op, tp, tm, ext, ext + |s| - 1)|
    ensures var r := Rows(CollapsedSites(true, op, tp, tm, ext, ext + |s| - 1), tp, mp, tm, mm, offset)[j];
      var r1 := Rows(SeparateSites(true, op, om, tp, tm, ext, ext + |s|), tp, mp, tm, mm, offset);
      r.strand == Both && p in r1 && q in r1 &&
      p.pos == r.pos && p.strand == Plus && q.pos == r.pos + 1 && q.strand == Minus &&
      r.t == p.t + q.t && r.m == p.m + q.m
  {
    var xs0 := CollapsedSites(true, op, tp, tm, ext, ext + |s| - 1);
    var x := xs0[j];
    assert x in xs0;
    CollapsedSiteMarked(op, tp, tm, ext, ext + |s| - 1, x);
    p, q := CollapsedRowPair(op, om, tp, mp, tm, mm, ext, ext + |s|, offset, x);
  }

  /** The '+' and '-' rows of mode 1 that a collapsed site's row sums,
      given that the G mark follows the C mark at the site's index. */
  lemma CollapsedRowPair(op: seq<bool>, om: seq<bool>, tp: seq<nat>, mp: seq<nat>, tm: seq<nat>, mm: seq<nat>,
                         lo: nat, hi: nat, offset: nat, x: Site) returns (p: MethRow, q: MethRow)
    requires lo < hi < |op| && |om| == |op| && |tp| == |op| && |mp| == |op| && |tm| == |op| && |mm| == |op|
    requires x in CollapsedSites(true, op, tp, tm, lo, hi - 1)
    requires x.idx + 1 < |op| && om[x.idx + 1] == op[x.idx]
    ensures var r, r1 := RowAt(x, tp, mp, tm, mm, offset), Rows(SeparateSites(true, op, om, tp, tm, lo, hi), tp, mp, tm, mm, offset);
      r.strand == Both && p in r1 && q in r1 &&
      p.pos == r.pos && p.strand == Plus && q.pos == r.pos + 1 && q.strand == Minus &&
      r.t == p.t + q.t && r.m == p.m + q.m
  {
    var xs1 := SeparateSites(true, op, om, tp, tm, lo, hi);
    CollapsedSiteMarked(op, tp, tm, lo, hi - 1, x);
    var xp, xm := Site(x.idx, Plus), Site(x.idx + 1, Minus);
    MarkedSiteIn(op, om, tp, tm, lo, hi, xp);
    MarkedSiteIn(op, om, tp, tm, lo, hi, xm);
    RowOfSite(xp, xs1, tp, mp, tm, mm, offset);
    RowOfSite(xm, xs1, tp, mp, tm, mm, offset);
    p, q := RowAt(xp, tp, mp, tm, mm, offset), RowAt(xm, tp, mp, tm, mm, offset);
  }

  /** A collapsed site lies at a marked index of the scanned range. */
  lemma CollapsedSiteMarked(op: seq<bool>, tp: seq<nat>, tm: seq<nat>, lo: nat, hi: int, x: Site)
    requires hi < |op| && |tp| == |op| && |tm| == |op|
    requires x in CollapsedSites(true, op, tp, tm, lo, hi)
    ensures lo <= x.idx < hi && x.strand == Both && op[x.idx]
  {
    CollapsedSitesMembers(true, op, tp, tm, lo, hi);
  }

  /** Over the CpG masks the G of a CpG is marked one index after its C. */
  lemma CpGMarksAlign(s: string, ext: nat, op: seq<bool>, om: seq<bool>, i: nat)
    requires Masks(s, 1, ext, op, om) && i + 1 < |op|
    ensures om[i + 1] == op[i]
  {
    assert om[i + 1] == MinusMark(s, 1, ext, i + 1) && op[i] == PlusMark(s, 1, ext, i);
  }

  /** With returnZero, a marked strand of a scanned index has its site. */
  lemma MarkedSiteIn(op: seq<bool>, om: seq<bool>, tp: seq<nat>, tm: seq<nat>, lo: nat, hi: nat, x: Site)
    requires lo <= x.idx < hi <= |op| && |om| == |op| && |tp| == |op| && |tm| == |op|
    requires (x.strand == Plus && op[x.idx]) || (x.strand == Minus && om[x.idx])
    ensures x in SeparateSites(true, op, om, tp, tm, lo, hi)
  {
    SeparateSiteMember(true, op, om, tp, tm, lo, hi, x);
  }

  /** Over the CpG masks, each '+' row has its collapsed row. */
  lemma PlusRowsCollapsed(s: string, ext: nat, op: seq<bool>, om: seq<bool>, tp: seq<nat>, mp: seq<nat>, tm: seq<nat>, mm: seq<nat>, offset: nat)
    requires Masks(s, 1, ext, op, om) && |op| == BufferSize(s) && ext <= MaxReadLength
    requires |tp| == |op| && |mp| == |op| && |tm| == |op| && |mm| == |op|
    ensures var r0 := Rows(ReportSites(0, true, op, om, tp, tm, ext, |s|), tp, mp, tm, mm, offset);
      var r1 := Rows(ReportSites(1, true, op, om, tp, tm, ext, |s|), tp, mp, tm, mm, offset);
      forall p :: p in r1 && p.strand == Plus ==> exists r :: r in r0 && r.pos == p.pos
  {
    var xs0 := CollapsedSites(true, op, tp, tm, ext, ext + |s| - 1);
    var xs1 := SeparateSites(true, op, om, tp, tm, ext, ext + |s|);
    var r0, r1 := Rows(xs0, tp, mp, tm, mm, offset), Rows(xs1, tp, mp, tm, mm, offset);
    CollapsedSitesMembers(true, op, tp, tm, ext, ext + |s| - 1);
    SeparateSitesMembers(true, op, om, tp, tm, ext, ext + |s|);
    forall p | p in r1 && p.strand == Plus ensures exists r :: r in r0 && r.pos == p.pos {
      var j :| 0 <= j < |xs1| && r1[j] == p;
      var x := xs1[j];
      assert x in xs1;
      var i := x.idx;
      assert op[i] == PlusMark(s, 1, ext, i);
      RowOfSite(Site(i, Both), xs0, tp, mp, tm, mm, offset);
    }
  }
}
