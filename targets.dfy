/** What the three bisulfite drivers of quantify_methylation.cpp share: the
    padding of the counter arrays (MAX_READ_LENGTH positions on each side of
    the region), the target masks built from the region's reference string,
    and the choice of report rows from the masks and the totals. */
module Targets {
  import opened Bam
  import opened Text

  /** MAX_READ_LENGTH of quantify_methylation.h. */
  const MaxReadLength: nat := 500

  predicate IsC(c: char) { c == 'C' || c == 'c' }
  predicate IsG(c: char) { c == 'G' || c == 'g' }

  /** A CpG dinucleotide starts at index i of the reference string. */
  predicate CpGAt(s: string, i: int) {
    0 <= i && i + 1 < |s| && IsC(s[i]) && IsG(s[i + 1])
  }

  /** leftextension: the padding before the region, min(start, MAX_READ_LENGTH). */
  function LeftExtension(start: nat): (e: nat)
    ensures e <= start && e <= MaxReadLength
    ensures e == start || e == MaxReadLength
  {
    if start < MaxReadLength then start else MaxReadLength
  }

  /** The genomic 0-based coordinate of array index 0. */
  function Offset(start: nat): (o: nat)
    ensures o + LeftExtension(start) == start
    ensures start <= MaxReadLength ==> o == 0
  {
    start - LeftExtension(start)
  }

  /** seqlen + 2*MAX_READ_LENGTH entries per counter array. */
  function BufferSize(s: string): (n: nat)
    ensures n == |s| + 2 * MaxReadLength
  {
    |s| + 2 * MaxReadLength
  }

  // ---------------------------------------------------------------------
  // The ungapped walk of the three callbacks

  /** Array index k lies under the record: the callbacks run i from
      pos - offset up to bam_calend - offset, ignoring the CIGAR's gaps. The
      loop index is unsigned, so for a record starting left of offset
      pos - offset wraps above every bound and the record covers nothing. */
  predicate Covers(h: Record, offset: nat, k: int) {
    offset <= h.pos && h.pos - offset <= k < CalEnd(h) - offset
  }

  /** What the callbacks assume of a fetched record and do not check: one
      that starts at or right of offset ends before the end of the padded
      arrays, and every record has a read base for each reference position
      it spans (the ungapped alignment the callbacks assume). */
  predicate Fits(h: Record, offset: nat, size: nat) {
    (offset <= h.pos ==> CalEnd(h) - offset <= size) && RefLen(h.cigar) <= |h.bases|
  }

  /** The read base at lock-step read index j = k - (pos - offset). */
  function BaseAt(h: Record, offset: nat, k: int): Nibble
    requires Covers(h, offset, k) && RefLen(h.cigar) <= |h.bases|
  {
    h.bases[k - (h.pos - offset)]
  }

  // ---------------------------------------------------------------------
  // Target masks

  /** outputPlus[k] after the scan: in mode 2 every C, in modes 0 and 1 the
      C of every CpG, each at its string index shifted by the padding. */
  predicate PlusMark(s: string, mode: int, ext: nat, k: int) {
    var i := k - ext;
    if mode == 2 then 0 <= i < |s| && IsC(s[i]) else CpGAt(s, i)
  }

  /** outputMinus[k] after the scan: in mode 2 every G, in modes 0 and 1 the
      G of every CpG. */
  predicate MinusMark(s: string, mode: int, ext: nat, k: int) {
    var i := k - ext;
    if mode == 2 then 0 <= i < |s| && IsG(s[i]) else CpGAt(s, i - 1)
  }

  function CountC(s: string, i: nat): nat
    requires i <= |s|
  {
    if i == 0 then 0 else CountC(s, i - 1) + (if IsC(s[i - 1]) then 1 else 0)
  }

  function CountG(s: string, i: nat): nat
    requires i <= |s|
  {
    if i == 0 then 0 else CountG(s, i - 1) + (if IsG(s[i - 1]) then 1 else 0)
  }

  /** Number of CpG dinucleotides starting before index i. */
  function CountCpG(s: string, i: nat): nat
    requires i <= |s|
  {
    if i == 0 then 0 else CountCpG(s, i - 1) + (if CpGAt(s, i - 1) then 1 else 0)
  }

  /** nOutput as the scan computes it: C plus G count in mode 2, twice the
      CpG count in mode 1, the CpG count in mode 0. */
  function NOutput(s: string, mode: int): nat {
    if mode == 2 then CountC(s, |s|) + CountG(s, |s|)
    else if mode == 1 then 2 * CountCpG(s, |s|)
    else CountCpG(s, |s|)
  }

  /** A position is never a plus and a minus target at once: a character is
      not both C and G. */
  lemma MarksDisjoint(s: string, mode: int, ext: nat, k: int)
    ensures !(PlusMark(s, mode, ext, k) && MinusMark(s, mode, ext, k))
  {
  }

  /** The target masks as values: index k is marked iff the scan marks it. */
  function PlusMask(s: string, mode: int, ext: nat, size: nat): (r: seq<bool>)
    ensures |r| == size && forall k :: 0 <= k < size ==> r[k] == PlusMark(s, mode, ext, k)
  {
    seq(size, k => PlusMark(s, mode, ext, k))
  }

  function MinusMask(s: string, mode: int, ext: nat, size: nat): (r: seq<bool>)
    ensures |r| == size && forall k :: 0 <= k < size ==> r[k] == MinusMark(s, mode, ext, k)
  {
    seq(size, k => MinusMark(s, mode, ext, k))
  }

  /** The two zeroed mask arrays of BufferSize(s) entries, then the mask
      scan over them. */
  method NewMasks(s: string, mode: int, ext: nat) returns (op: array<bool>, om: array<bool>, r: Result<nat>)
    requires ext <= MaxReadLength
    ensures fresh(op) && fresh(om) && op.Length == BufferSize(s) && om.Length == BufferSize(s)
    ensures r.Err? <==> !(mode == 0 || mode == 1 || mode == 2)
    ensures r.Err? ==> r.msg == ModeError(mode)
    ensures r.Ok? ==> r.value == NOutput(s, mode)
    ensures r.Ok? ==> op[..] == PlusMask(s, mode, ext, BufferSize(s)) && om[..] == MinusMask(s, mode, ext, BufferSize(s))
  {
    var size := |s| + 2 * MaxReadLength;
    op := new bool[size](_ => false);
    om := new bool[size](_ => false);
    r := MarkOutput(s, mode, ext, op, om);
  }

  /** The error an unknown mode raises. */
  function ModeError(mode: int): string {
    "unknown mode '" + IntToString(mode) + "', should be one of 0, 1, or 2.\n"
  }

  /** The mask scan of quantify_methylation and quantify_methylation_allele:
      mode 2 marks C and G, modes 0 and 1 mark CpG, any other mode is an
      error. Returns nOutput. */
  method MarkOutput(s: string, mode: int, ext: nat, op: array<bool>, om: array<bool>) returns (r: Result<nat>)
    requires op != om && op.Length == om.Length && |s| + ext <= op.Length
    requires forall k :: 0 <= k < op.Length ==> !op[k] && !om[k]
    modifies op, om
    ensures r.Err? <==> !(mode == 0 || mode == 1 || mode == 2)
    ensures r.Err? ==> r.msg == ModeError(mode)
    ensures r.Ok? ==> r.value == NOutput(s, mode)
    ensures r.Ok? ==> forall k :: 0 <= k < op.Length ==> op[k] == PlusMark(s, mode, ext, k) && om[k] == MinusMark(s, mode, ext, k)
  {
    var nPlus, nMinus := 0, 0;
    if mode == 2 {
      var i := 0;
      while i < |s|
        invariant 0 <= i <= |s|
        invariant nPlus == CountC(s, i) && nMinus == CountG(s, i)
        invariant forall k :: 0 <= k < op.Length ==> op[k] == (PlusMark(s, mode, ext, k) && k < i + ext)
        invariant forall k :: 0 <= k < op.Length ==> om[k] == (MinusMark(s, mode, ext, k) && k < i + ext)
      {
        if IsC(s[i]) {
          op[i + ext] := true;
          nPlus := nPlus + 1;
        } else if IsG(s[i]) {
          om[i + ext] := true;
          nMinus := nMinus + 1;
        }
        i := i + 1;
      }
      return Ok(nPlus + nMinus);
    } else if mode == 1 || mode == 0 {
      var i := 0;
      while i < |s| - 1
        invariant 0 <= i <= |s|
        invariant |s| > 0 ==> i < |s|
        invariant nPlus == CountCpG(s, i)
        invariant forall k :: 0 <= k < op.Length ==> op[k] == (PlusMark(s, mode, ext, k) && k < i + ext)
        invariant forall k :: 0 <= k < op.Length ==> om[k] == (MinusMark(s, mode, ext, k) && k < i + 1 + ext)
      {
        if IsC(s[i]) && IsG(s[i + 1]) {
          op[i + ext] := true;
          om[i + 1 + ext] := true;
          nPlus := nPlus + 1;
        }
        i := i + 1;
      }
      assert CountCpG(s, |s|) == nPlus by {
        if |s| > 0 {
          assert i == |s| - 1;
          assert !CpGAt(s, |s| - 1);
        }
      }
      return Ok(if mode == 1 then 2 * nPlus else nPlus);
    } else {
      return Err(ModeError(mode));
    }
  }

  // ---------------------------------------------------------------------
  // Report rows

  /** '+', '-' and '*' (strands collapsed) in the strand column. */
  datatype Strand = Plus | Minus | Both

  /** A report row before its values are read: array index and strand. */
  datatype Site = Site(idx: nat, strand: Strand)

  /** The rows emitted at array index i in modes 1 and 2: the plus row, then
      the minus row, each when marked and (keepZero or non-zero total). */
  function SitesAt(keepZero: bool, op: seq<bool>, om: seq<bool>, totP: seq<nat>, totM: seq<nat>, i: nat): seq<Site>
    requires i < |op| && i < |om| && i < |totP| && i < |totM|
  {
    (if op[i] && (keepZero || totP[i] > 0) then [Site(i, Plus)] else [])
    + (if om[i] && (keepZero || totM[i] > 0) then [Site(i, Minus)] else [])
  }

  /** The fill loop of modes 1 and 2 over array indices lo until hi. */
  function SeparateSites(keepZero: bool, op: seq<bool>, om: seq<bool>, totP: seq<nat>, totM: seq<nat>, lo: nat, hi: nat): (r: seq<Site>)
    requires lo <= hi <= |op| && |om| == |op| && |totP| == |op| && |totM| == |op|
    decreases hi
  {
    if hi == lo then []
    else SeparateSites(keepZero, op, om, totP, totM, lo, hi - 1) + SitesAt(keepZero, op, om, totP, totM, hi - 1)
  }

  /** The fill loop of mode 0 over array indices lo until hi: one '*' row per
      plus mark, its total being the plus total at i and the minus total at
      i + 1. */
  function CollapsedSites(keepZero: bool, op: seq<bool>, totP: seq<nat>, totM: seq<nat>, lo: nat, hi: int): (r: seq<Site>)
    requires hi < |op| && |totP| == |op| && |totM| == |op|
    decreases hi
  {
    if hi <= lo then []
    else CollapsedSites(keepZero, op, totP, totM, lo, hi - 1)
         + (if op[hi - 1] && (keepZero || totP[hi - 1] > 0 || totM[hi] > 0) then [Site(hi - 1, Both)] else [])
  }

  /** The rows of the report over the n region positions starting at array
      index lo: modes 1 and 2 scan [lo, lo+n), mode 0 scans [lo, lo+n-1). */
  function ReportSites(mode: int, keepZero: bool, op: seq<bool>, om: seq<bool>, totP: seq<nat>, totM: seq<nat>, lo: nat, n: nat): (r: seq<Site>)
    requires lo + n < |op| && |om| == |op| && |totP| == |op| && |totM| == |op|
  {
    if mode == 0 then CollapsedSites(keepZero, op, totP, totM, lo, lo + n - 1)
    else SeparateSites(keepZero, op, om, totP, totM, lo, lo + n)
  }

  /** The total a site is filtered on (0 for an index outside the arrays). */
  function SiteTotal(x: Site, totP: seq<nat>, totM: seq<nat>): nat {
    if x.idx + 1 < |totP| && x.idx + 1 < |totM| then
      match x.strand
      case Plus => totP[x.idx]
      case Minus => totM[x.idx]
      case Both => totP[x.idx] + totM[x.idx + 1]
    else 0
  }

  /** The sites with a non-zero total, in order. */
  function NonZero(xs: seq<Site>, totP: seq<nat>, totM: seq<nat>): seq<Site> {
    if xs == [] then []
    else NonZero(xs[..|xs| - 1], totP, totM)
         + (if SiteTotal(xs[|xs| - 1], totP, totM) > 0 then [xs[|xs| - 1]] else [])
  }

  predicate Disjoint(op: seq<bool>, om: seq<bool>) {
    forall k :: 0 <= k < |op| && k < |om| ==> !(op[k] && om[k])
  }

  /** Dropping zero-total rows (returnZero false) yields exactly the rows of
      the full report whose total is non-zero, in the same order. */
  lemma {:induction false} DropZeroIsFilter(mode: int, op: seq<bool>, om: seq<bool>, totP: seq<nat>, totM: seq<nat>, lo: nat, n: nat)
    requires lo + n < |op| && |om| == |op| && |totP| == |op| && |totM| == |op|
    ensures ReportSites(mode, false, op, om, totP, totM, lo, n) == NonZero(ReportSites(mode, true, op, om, totP, totM, lo, n), totP, totM)
  {
    var t, f := ReportSites(mode, true, op, om, totP, totM, lo, n), ReportSites(mode, false, op, om, totP, totM, lo, n);
    if mode == 0 {
      assert f == NonZero(t, totP, totM) by {
        CollapsedFilter(op, totP, totM, lo, lo + n - 1);
      }
    } else {
      assert f == NonZero(t, totP, totM) by {
        SeparateFilter(op, om, totP, totM, lo, lo + n);
      }
    }
  }

  lemma {:induction false} SeparateFilter(op: seq<bool>, om: seq<bool>, totP: seq<nat>, totM: seq<nat>, lo: nat, hi: nat)
    requires lo <= hi < |op| && |om| == |op| && |totP| == |op| && |totM| == |op|
    ensures SeparateSites(false, op, om, totP, totM, lo, hi) == NonZero(SeparateSites(true, op, om, totP, totM, lo, hi), totP, totM)
    decreases hi
  {
    if hi > lo {
      var i := hi - 1;
      var p, q := SeparateSites(true, op, om, totP, totM, lo, i), SitesAt(true, op, om, totP, totM, i);
      var p', q' := SeparateSites(false, op, om, totP, totM, lo, i), SitesAt(false, op, om, totP, totM, i);
      assert p' == NonZero(p, totP, totM) by { SeparateFilter(op, om, totP, totM, lo, i); }
      assert q' == NonZero(q, totP, totM) by { SitesAtFilter(op, om, totP, totM, i); }
      assert NonZero(p + q, totP, totM) == NonZero(p, totP, totM) + NonZero(q, totP, totM) by {
        NonZeroAppend(p, q, totP, totM);
      }
    }
  }

  lemma SitesAtFilter(op: seq<bool>, om: seq<bool>, totP: seq<nat>, totM: seq<nat>, i: nat)
    requires i + 1 < |op| && |om| == |op| && |totP| == |op| && |totM| == |op|
    ensures SitesAt(false, op, om, totP, totM, i) == NonZero(SitesAt(true, op, om, totP, totM, i), totP, totM)
  {
    var plus := if op[i] then [Site(i, Plus)] else [];
    var minus := if om[i] then [Site(i, Minus)] else [];
    assert SitesAt(true, op, om, totP, totM, i) == plus + minus;
    NonZeroAppend(plus, minus, totP, totM);
    assert NonZero(plus, totP, totM) == (if op[i] && totP[i] > 0 then [Site(i, Plus)] else []) by {
      if op[i] { assert plus[..0] == []; }
    }
    assert NonZero(minus, totP, totM) == (if om[i] && totM[i] > 0 then [Site(i, Minus)] else []) by {
      if om[i] { assert minus[..0] == []; }
    }
  }

  lemma {:induction false} CollapsedFilter(op: seq<bool>, totP: seq<nat>, totM: seq<nat>, lo: nat, hi: int)
    requires hi < |op| && |totP| == |op| && |totM| == |op|
    ensures CollapsedSites(false, op, totP, totM, lo, hi) == NonZero(CollapsedSites(true, op, totP, totM, lo, hi), totP, totM)
    decreases hi
  {
    if hi > lo {
      var p := CollapsedSites(true, op, totP, totM, lo, hi - 1);
      var last := if op[hi - 1] then [Site(hi - 1, Both)] else [];
      assert CollapsedSites(false, op, totP, totM, lo, hi - 1) == NonZero(p, totP, totM) by {
        CollapsedFilter(op, totP, totM, lo, hi - 1);
      }
      assert NonZero(p + last, totP, totM) == NonZero(p, totP, totM) + NonZero(last, totP, totM) by {
        NonZeroAppend(p, last, totP, totM);
      }
      assert NonZero(last, totP, totM) == (if op[hi - 1] && (totP[hi - 1] > 0 || totM[hi] > 0) then [Site(hi - 1, Both)] else []) by {
        if op[hi - 1] { assert last[..0] == []; }
      }
    }
  }

  lemma {:induction false} NonZeroAppend(a: seq<Site>, b: seq<Site>, totP: seq<nat>, totM: seq<nat>)
    ensures NonZero(a + b, totP, totM) == NonZero(a, totP, totM) + NonZero(b, totP, totM)
    decreases |b|
  {
    if b == [] {
      assert a + b == a;
    } else {
      var q := b[..|b| - 1];
      NonZeroAppend(a, q, totP, totM);
      assert (a + b)[..|a + b| - 1] == a + q;
    }
  }

  /** The masks the scan leaves for reference string s in the given mode. */
  predicate Masks(s: string, mode: int, ext: nat, op: seq<bool>, om: seq<bool>) {
    |om| == |op| && forall k :: 0 <= k < |op| ==> op[k] == PlusMark(s, mode, ext, k) && om[k] == MinusMark(s, mode, ext, k)
  }

  /** The masks as values are the masks the scan marks. */
  lemma MasksOf(s: string, mode: int, ext: nat, size: nat)
    ensures Masks(s, mode, ext, PlusMask(s, mode, ext, size), MinusMask(s, mode, ext, size))
  {
  }

  /** With returnZero, the report over the masks of a valid mode has exactly
      nOutput rows: the result vectors allocated with nOutput entries are
      filled completely and never overrun. */
  lemma RowCountIsNOutput(s: string, mode: int, op: seq<bool>, om: seq<bool>, totP: seq<nat>, totM: seq<nat>, lo: nat)
    requires mode == 0 || mode == 1 || mode == 2
    requires Masks(s, mode, lo, op, om) && lo + |s| < |op| && |totP| == |op| && |totM| == |op|
    ensures |ReportSites(mode, true, op, om, totP, totM, lo, |s|)| == NOutput(s, mode)
  {
    if mode == 2 {
      SeparateCountC(s, op, om, totP, totM, lo, |s|);
    } else if mode == 1 {
      SeparateCountCpG(s, op, om, totP, totM, lo, |s|);
      if |s| > 0 {
        assert !CpGAt(s, |s| - 1);
      }
    } else {
      if |s| > 0 {
        CollapsedCountCpG(s, op, totP, totM, lo, |s| - 1);
        assert !CpGAt(s, |s| - 1);
      }
    }
  }

  lemma {:induction false} SeparateCountC(s: string, op: seq<bool>, om: seq<bool>, totP: seq<nat>, totM: seq<nat>, lo: nat, h: nat)
    requires Masks(s, 2, lo, op, om) && lo + |s| < |op| && |totP| == |op| && |totM| == |op| && h <= |s|
    ensures |SeparateSites(true, op, om, totP, totM, lo, lo + h)| == CountC(s, h) + CountG(s, h)
  {
    if h > 0 {
      SeparateCountC(s, op, om, totP, totM, lo, h - 1);
      assert op[lo + h - 1] == IsC(s[h - 1]) && om[lo + h - 1] == IsG(s[h - 1]);
    }
  }

  lemma {:induction false} SeparateCountCpG(s: string, op: seq<bool>, om: seq<bool>, totP: seq<nat>, totM: seq<nat>, lo: nat, h: nat)
    requires Masks(s, 1, lo, op, om) && lo + |s| < |op| && |totP| == |op| && |totM| == |op| && h <= |s|
    ensures |SeparateSites(true, op, om, totP, totM, lo, lo + h)| == CountCpG(s, h) + (if h == 0 then 0 else CountCpG(s, h - 1))
  {
    if h > 0 {
      SeparateCountCpG(s, op, om, totP, totM, lo, h - 1);
      assert op[lo + h - 1] == CpGAt(s, h - 1) && om[lo + h - 1] == CpGAt(s, h - 2);
    }
  }

  lemma {:induction false} CollapsedCountCpG(s: string, op: seq<bool>, totP: seq<nat>, totM: seq<nat>, lo: nat, h: nat)
    requires h <= |s| && lo + |s| < |op| && |totP| == |op| && |totM| == |op|
    requires forall k :: 0 <= k < |op| ==> op[k] == PlusMark(s, 0, lo, k)
    ensures |CollapsedSites(true, op, totP, totM, lo, lo + h)| == CountCpG(s, h)
  {
    if h > 0 {
      CollapsedCountCpG(s, op, totP, totM, lo, h - 1);
      assert op[lo + h - 1] == CpGAt(s, h - 1);
    }
  }

  /** A plus or minus row for index k is emitted exactly when k lies in the
      scanned range, the mask is set there and (returnZero or its total is
      non-zero). */
  lemma SeparateSitesMembers(keepZero: bool, op: seq<bool>, om: seq<bool>, totP: seq<nat>, totM: seq<nat>, lo: nat, hi: nat)
    requires lo <= hi <= |op| && |om| == |op| && |totP| == |op| && |totM| == |op|
    ensures forall x :: x in SeparateSites(keepZero, op, om, totP, totM, lo, hi) <==>
      (lo <= x.idx < hi &&
       ((x.strand == Plus && op[x.idx] && (keepZero || totP[x.idx] > 0)) ||
        (x.strand == Minus && om[x.idx] && (keepZero || totM[x.idx] > 0))))
  {
    forall x ensures x in SeparateSites(keepZero, op, om, totP, totM, lo, hi) <==>
      (lo <= x.idx < hi &&
       ((x.strand == Plus && op[x.idx] && (keepZero || totP[x.idx] > 0)) ||
        (x.strand == Minus && om[x.idx] && (keepZero || totM[x.idx] > 0))))
    {
      SeparateSiteMember(keepZero, op, om, totP, totM, lo, hi, x);
    }
  }

  lemma {:induction false} SeparateSiteMember(keepZero: bool, op: seq<bool>, om: seq<bool>, totP: seq<nat>, totM: seq<nat>, lo: nat, hi: nat, x: Site)
    requires lo <= hi <= |op| && |om| == |op| && |totP| == |op| && |totM| == |op|
    ensures x in SeparateSites(keepZero, op, om, totP, totM, lo, hi) <==>
      (lo <= x.idx < hi &&
       ((x.strand == Plus && op[x.idx] && (keepZero || totP[x.idx] > 0)) ||
        (x.strand == Minus && om[x.idx] && (keepZero || totM[x.idx] > 0))))
    decreases hi
  {
    if hi > lo {
      SeparateSiteMember(keepZero, op, om, totP, totM, lo, hi - 1, x);
      var q := SitesAt(keepZero, op, om, totP, totM, hi - 1);
      assert SeparateSites(keepZero, op, om, totP, totM, lo, hi) == SeparateSites(keepZero, op, om, totP, totM, lo, hi - 1) + q;
    }
  }

  /** A '*' row for index k is emitted exactly when k lies in the scanned
      range, the plus mask is set there and (returnZero or the plus total at
      k or the minus total at k + 1 is non-zero). */
  lemma {:induction false} CollapsedSitesMembers(keepZero: bool, op: seq<bool>, totP: seq<nat>, totM: seq<nat>, lo: nat, hi: int)
    requires hi < |op| && |totP| == |op| && |totM| == |op|
    ensures forall x :: x in CollapsedSites(keepZero, op, totP, totM, lo, hi) <==>
      (lo <= x.idx < hi && x.strand == Both && op[x.idx] && (keepZero || totP[x.idx] > 0 || totM[x.idx + 1] > 0))
    decreases hi
  {
    if hi > lo {
      CollapsedSitesMembers(keepZero, op, totP, totM, lo, hi - 1);
    }
  }

  /** Report order: by array index, the plus row before the minus row. */
  predicate Before(a: Site, b: Site) {
    a.idx < b.idx || (a.idx == b.idx && a.strand == Plus && b.strand == Minus)
  }

  predicate Ordered(xs: seq<Site>) {
    forall i, j :: 0 <= i < j < |xs| ==> Before(xs[i], xs[j])
  }

  /** The rows come out strictly ordered, so no row is emitted twice. */
  lemma {:induction false} SeparateSitesOrdered(keepZero: bool, op: seq<bool>, om: seq<bool>, totP: seq<nat>, totM: seq<nat>, lo: nat, hi: nat)
    requires lo <= hi <= |op| && |om| == |op| && |totP| == |op| && |totM| == |op|
    ensures Ordered(SeparateSites(keepZero, op, om, totP, totM, lo, hi))
    decreases hi
  {
    if hi > lo {
      var p := SeparateSites(keepZero, op, om, totP, totM, lo, hi - 1);
      var q := SitesAt(keepZero, op, om, totP, totM, hi - 1);
      SeparateSitesOrdered(keepZero, op, om, totP, totM, lo, hi - 1);
      SeparateSitesMembers(keepZero, op, om, totP, totM, lo, hi - 1);
      assert forall x :: x in q ==> x.idx == hi - 1;
      assert Ordered(q);
      forall i, j | 0 <= i < j < |p + q| ensures Before((p + q)[i], (p + q)[j]) {
        if j >= |p| && i < |p| {
          assert (p + q)[i] in p && (p + q)[j] in q;
        }
      }
    }
  }

  lemma {:induction false} CollapsedSitesOrdered(keepZero: bool, op: seq<bool>, totP: seq<nat>, totM: seq<nat>, lo: nat, hi: int)
    requires hi < |op| && |totP| == |op| && |totM| == |op|
    ensures Ordered(CollapsedSites(keepZero, op, totP, totM, lo, hi))
    decreases hi
  {
    if hi > lo {
      var p := CollapsedSites(keepZero, op, totP, totM, lo, hi - 1);
      var q := if op[hi - 1] && (keepZero || totP[hi - 1] > 0 || totM[hi] > 0) then [Site(hi - 1, Both)] else [];
      CollapsedSitesOrdered(keepZero, op, totP, totM, lo, hi - 1);
      CollapsedSitesMembers(keepZero, op, totP, totM, lo, hi - 1);
      forall i, j | 0 <= i < j < |p + q| ensures Before((p + q)[i], (p + q)[j]) {
        if j >= |p| && i < |p| {
          assert (p + q)[i] in p;
        }
      }
    }
  }

  /** One step of the re-count loop that runs when zero rows are dropped:
      it counts index i once when a marked strand there has a non-zero
      total, which is the number of rows the fill loop emits at i unless
      both strands are marked at i. */
  lemma PreCountStep(op: seq<bool>, om: seq<bool>, totP: seq<nat>, totM: seq<nat>, i: nat)
    requires i < |op| && |om| == |op| && |totP| == |op| && |totM| == |op|
    ensures var c := if (op[i] && totP[i] > 0) || (om[i] && totM[i] > 0) then 1 else 0;
      c <= |SitesAt(false, op, om, totP, totM, i)| &&
      (!(op[i] && om[i]) ==> c == |SitesAt(false, op, om, totP, totM, i)|)
  {
  }
}
