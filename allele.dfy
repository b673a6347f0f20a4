/** quantify_methylation_allele: the bisulfite counts of quantify_methylation
    kept apart per allele, the allele of a record being given by its XV tag
    (R reference, U unknown, A alternative). */
module MethylationAllele {
  import opened Bam
  import opened Targets
  import opened Methylation

  /** alleleFlagToInt: 'R' selects counter set 0, 'A' set 2, every other
      character set 1 (unknown). */
  function AlleleFlagToInt(xv: char): (a: nat)
    ensures a < 3
    ensures a == 0 <==> xv == 'R'
    ensures a == 2 <==> xv == 'A'
  {
    match xv
    case 'R' => 0
    case 'A' => 2
    case _ => 1
  }

  /** The callback reads the XV tag without checking that it is present. */
  predicate Tagged(hits: seq<Record>) {
    forall h :: h in hits ==> h.xv.Some?
  }

  /** The records of allele a, in order. */
  function Routed(hits: seq<Record>, a: nat): seq<Record>
    requires Tagged(hits)
  {
    if hits == [] then []
    else
      var h := hits[|hits| - 1];
      Routed(hits[..|hits| - 1], a) + (if AlleleFlagToInt(h.xv.value) == a then [h] else [])
  }

  lemma {:induction false} RoutedReadable(hits: seq<Record>, a: nat)
    requires Tagged(hits) && Readable(hits)
    ensures Readable(Routed(hits, a))
  {
    if hits != [] {
      var p := hits[..|hits| - 1];
      assert forall h :: h in p ==> h in hits;
      RoutedReadable(p, a);
    }
  }

  /** Every record is counted for exactly one allele: the three allele
      tallies add up to the tally of all records. */
  lemma {:induction false} TallyRouted(c: Counter, hits: seq<Record>, offset: nat, marked: bool, k: int)
    requires Tagged(hits) && Readable(hits)
    ensures Readable(Routed(hits, 0)) && Readable(Routed(hits, 1)) && Readable(Routed(hits, 2))
    ensures Tally(c, Routed(hits, 0), offset, marked, k) + Tally(c, Routed(hits, 1), offset, marked, k)
          + Tally(c, Routed(hits, 2), offset, marked, k) == Tally(c, hits, offset, marked, k)
  {
    RoutedReadable(hits, 0);
    RoutedReadable(hits, 1);
    RoutedReadable(hits, 2);
    if hits != [] {
      var p := hits[..|hits| - 1];
      assert forall x :: x in p ==> x in hits;
      TallyRouted(c, p, offset, marked, k);
      RoutedStep(c, hits, 0, offset, marked, k);
      RoutedStep(c, hits, 1, offset, marked, k);
      RoutedStep(c, hits, 2, offset, marked, k);
    }
  }

  /** Counting the last record in the tally of allele b. */
  lemma RoutedStep(c: Counter, hits: seq<Record>, b: nat, offset: nat, marked: bool, k: int)
    requires Tagged(hits) && Readable(hits) && hits != []
    ensures Tagged(hits[..|hits| - 1]) && Readable(hits[..|hits| - 1])
    ensures Readable(Routed(hits, b)) && Readable(Routed(hits[..|hits| - 1], b))
    ensures var h := hits[|hits| - 1];
      Tally(c, Routed(hits, b), offset, marked, k)
      == Tally(c, Routed(hits[..|hits| - 1], b), offset, marked, k) + (if AlleleFlagToInt(h.xv.value) == b then Inc(c, h, offset, marked, k) else 0)
  {
    var p, h := hits[..|hits| - 1], hits[|hits| - 1];
    assert forall x :: x in p ==> x in hits;
    RoutedReadable(hits, b);
    RoutedReadable(p, b);
    if AlleleFlagToInt(h.xv.value) == b {
      var r := Routed(hits, b);
      assert r == Routed(p, b) + [h];
      assert r[..|r| - 1] == Routed(p, b) && r[|r| - 1] == h;
    } else {
      assert Routed(hits, b) == Routed(p, b);
    }
  }

  /** Records hits counted after the records already split by allele. */
  function Extend(c: (seq<Record>, seq<Record>, seq<Record>), hits: seq<Record>): (seq<Record>, seq<Record>, seq<Record>)
    requires Tagged(hits)
  {
    (c.0 + Routed(hits, 0), c.1 + Routed(hits, 1), c.2 + Routed(hits, 2))
  }

  lemma {:induction false} RoutedAppend(a: seq<Record>, b: seq<Record>, x: nat)
    requires Tagged(a) && Tagged(b)
    ensures Tagged(a + b) && Routed(a + b, x) == Routed(a, x) + Routed(b, x)
    decreases |b|
  {
    if b == [] {
      assert a + b == a;
    } else {
      var p := b[..|b| - 1];
      assert forall h :: h in p ==> h in b;
      RoutedAppend(a, p, x);
      assert (a + b)[..|a + b| - 1] == a + p;
    }
  }

  lemma ExtendAppend(c: (seq<Record>, seq<Record>, seq<Record>), a: seq<Record>, b: seq<Record>)
    requires Tagged(a) && Tagged(b)
    ensures Tagged(a + b) && Extend(c, a + b) == Extend(Extend(c, a), b)
  {
    RoutedAppend(a, b, 0);
    RoutedAppend(a, b, 1);
    RoutedAppend(a, b, 2);
    assert c.0 + Routed(a, 0) + Routed(b, 0) == c.0 + (Routed(a, 0) + Routed(b, 0));
    assert c.1 + Routed(a, 1) + Routed(b, 1) == c.1 + (Routed(a, 1) + Routed(b, 1));
    assert c.2 + Routed(a, 2) + Routed(b, 2) == c.2 + (Routed(a, 2) + Routed(b, 2));
  }

  /** A single record goes to the counter set of its own allele only. */
  lemma RoutedSingle(h: Record, x: nat)
    requires h.xv.Some?
    ensures Tagged([h]) && Routed([h], x) == if AlleleFlagToInt(h.xv.value) == x then [h] else []
  {
    assert [h][..0] == [];
  }

  lemma ExtendEmpty(c: (seq<Record>, seq<Record>, seq<Record>))
    ensures Extend(c, []) == c
  {
    assert c.0 + [] == c.0 && c.1 + [] == c.1 && c.2 + [] == c.2;
  }

  // ---------------------------------------------------------------------
  // The report of one region

  /** The four count vectors of one allele: total and methylated, plus and
      minus strand. */
  datatype Tallies = Tallies(tp: seq<nat>, mp: seq<nat>, tm: seq<nat>, mm: seq<nat>)

  /** One output row: position, strand, then the columns TR MR TU MU TA MA. */
  datatype AlleleRow = AlleleRow(pos: int, strand: Strand, tR: nat, mR: nat, tU: nat, mU: nat, tA: nat, mA: nat)

  /** The row the fill loop writes for a site, one pair of columns per
      allele. */
  function AlleleRowAt(x: Site, r: Tallies, u: Tallies, a: Tallies, offset: nat): AlleleRow {
    AlleleRow(x.idx + offset + 1, x.strand,
              SiteTotal(x, r.tp, r.tm), SiteTotal(x, r.mp, r.mm),
              SiteTotal(x, u.tp, u.tm), SiteTotal(x, u.mp, u.mm),
              SiteTotal(x, a.tp, a.tm), SiteTotal(x, a.mp, a.mm))
  }

  function AlleleRows(xs: seq<Site>, r: Tallies, u: Tallies, a: Tallies, offset: nat): (rows: seq<AlleleRow>)
    ensures |rows| == |xs|
  {
    seq(|xs|, j requires 0 <= j < |xs| => AlleleRowAt(xs[j], r, u, a, offset))
  }

  lemma AlleleRowsAppend(xs: seq<Site>, ys: seq<Site>, r: Tallies, u: Tallies, a: Tallies, offset: nat)
    ensures AlleleRows(xs + ys, r, u, a, offset) == AlleleRows(xs, r, u, a, offset) + AlleleRows(ys, r, u, a, offset)
  {
    var l, q := AlleleRows(xs + ys, r, u, a, offset), AlleleRows(xs, r, u, a, offset) + AlleleRows(ys, r, u, a, offset);
    forall j | 0 <= j < |l| ensures l[j] == q[j] {
      if j >= |xs| {
        assert (xs + ys)[j] == ys[j - |xs|];
      }
    }
  }

  /** Element-wise sum of the three allele vectors: a site is reported when
      any of the three allele totals is non-zero, that is when their sum is. */
  function Sum3(x: seq<nat>, y: seq<nat>, z: seq<nat>): (r: seq<nat>)
    requires |x| == |y| == |z|
    ensures |r| == |x| && forall k :: 0 <= k < |r| ==> r[k] == x[k] + y[k] + z[k]
  {
    seq(|x|, k requires 0 <= k < |x| => x[k] + y[k] + z[k])
  }

  /** The four counter arrays after counting the records hits. */
  function Counts(hits: seq<Record>, offset: nat, op: seq<bool>, om: seq<bool>): Tallies
    requires Readable(hits)
  {
    Tallies(TallySeq(TotalPlus, hits, offset, op), TallySeq(MethPlus, hits, offset, op),
            TallySeq(TotalMinus, hits, offset, om), TallySeq(MethMinus, hits, offset, om))
  }

  /** The counter arrays of allele a after counting the records hits. */
  function AlleleCounts(hits: seq<Record>, a: nat, offset: nat, op: seq<bool>, om: seq<bool>): Tallies
    requires Readable(hits) && Tagged(hits)
  {
    RoutedReadable(hits, a);
    Counts(Routed(hits, a), offset, op, om)
  }

  /** The rows quantify_methylation_allele returns for the reference string s
      of a region starting at 0-based start, after counting the records
      hits. */
  function AlleleReport(hits: seq<Record>, s: string, start: nat, mode: int, keepZero: bool): seq<AlleleRow>
    requires Readable(hits) && Tagged(hits)
  {
    var ext, offset, size := LeftExtension(start), Offset(start), BufferSize(s);
    var op, om := PlusMask(s, mode, ext, size), MinusMask(s, mode, ext, size);
    var r, u, a := AlleleCounts(hits, 0, offset, op, om), AlleleCounts(hits, 1, offset, op, om), AlleleCounts(hits, 2, offset, op, om);
    AlleleRows(ReportSites(mode, keepZero, op, om, Sum3(r.tp, u.tp, a.tp), Sum3(r.tm, u.tm, a.tm), ext, |s|), r, u, a, offset)
  }

  /** One step of the fill loop of modes 1 and 2, on values. */
  lemma SeparateStep(keepZero: bool, op: seq<bool>, om: seq<bool>, tp: seq<nat>, tm: seq<nat>, lo: nat, i: nat,
                     r: Tallies, u: Tallies, a: Tallies, offset: nat, rows: seq<AlleleRow>, here: seq<AlleleRow>)
    requires lo <= i < |op| && |om| == |op| && |tp| == |op| && |tm| == |op|
    requires rows == AlleleRows(SeparateSites(keepZero, op, om, tp, tm, lo, i), r, u, a, offset)
    requires here == AlleleRows(SitesAt(keepZero, op, om, tp, tm, i), r, u, a, offset)
    ensures rows + here == AlleleRows(SeparateSites(keepZero, op, om, tp, tm, lo, i + 1), r, u, a, offset)
  {
    AlleleRowsAppend(SeparateSites(keepZero, op, om, tp, tm, lo, i), SitesAt(keepZero, op, om, tp, tm, i), r, u, a, offset);
  }

  /** One step of the fill loop of mode 0, on values. */
  lemma CollapsedStep(keepZero: bool, op: seq<bool>, tp: seq<nat>, tm: seq<nat>, lo: nat, i: nat,
                      r: Tallies, u: Tallies, a: Tallies, offset: nat, rows: seq<AlleleRow>, here: seq<AlleleRow>)
    requires lo <= i && i + 1 < |op| && |tp| == |op| && |tm| == |op|
    requires rows == AlleleRows(CollapsedSites(keepZero, op, tp, tm, lo, i), r, u, a, offset)
    requires here == AlleleRows(if op[i] && (keepZero || tp[i] > 0 || tm[i + 1] > 0) then [Site(i, Both)] else [], r, u, a, offset)
    ensures rows + here == AlleleRows(CollapsedSites(keepZero, op, tp, tm, lo, i + 1), r, u, a, offset)
  {
    AlleleRowsAppend(CollapsedSites(keepZero, op, tp, tm, lo, i),
                     if op[i] && (keepZero || tp[i] > 0 || tm[i + 1] > 0) then [Site(i, Both)] else [], r, u, a, offset);
  }

  /** The counter sets of one region: one MethCounters per allele, all over
      the same masks and offset. */
  class AlleleCounters {
    const R: MethCounters
    const U: MethCounters
    const A: MethCounters
    const op: array<bool>
    const om: array<bool>
    const offset: nat
    ghost const Repr: set<object>

    /** Three counter sets over the same masks and offset, with pairwise
        distinct arrays. */
    ghost predicate Shape() {
      && Repr == {R, U, A, R.Tp, R.Mp, R.Tm, R.Mm, U.Tp, U.Mp, U.Tm, U.Mm, A.Tp, A.Mp, A.Tm, A.Mm}
      && R != U && R != A && U != A
      && {R.Tp, R.Mp, R.Tm, R.Mm} !! {U.Tp, U.Mp, U.Tm, U.Mm}
      && {R.Tp, R.Mp, R.Tm, R.Mm} !! {A.Tp, A.Mp, A.Tm, A.Mm}
      && {U.Tp, U.Mp, U.Tm, U.Mm} !! {A.Tp, A.Mp, A.Tm, A.Mm}
      && R.op == op && U.op == op && A.op == op && R.om == om && U.om == om && A.om == om
      && R.offset == offset && U.offset == offset && A.offset == offset
      && R.Shape() && U.Shape() && A.Shape()
      && Sized()
    }

    /** Every counter array is as long as the masks. */
    ghost predicate Sized() {
      && om.Length == op.Length
      && R.Tp.Length == op.Length && R.Mp.Length == op.Length && R.Tm.Length == op.Length && R.Mm.Length == op.Length
      && U.Tp.Length == op.Length && U.Mp.Length == op.Length && U.Tm.Length == op.Length && U.Mm.Length == op.Length
      && A.Tp.Length == op.Length && A.Mp.Length == op.Length && A.Tm.Length == op.Length && A.Mm.Length == op.Length
    }

    /** Each counter set holds the tallies of the records counted in it. */
    ghost predicate Valid()
      reads Repr, op, om
    {
      Shape() && R.Valid() && U.Valid() && A.Valid()
    }

    /** The records counted so far, split by allele. */
    ghost function Counted(): (seq<Record>, seq<Record>, seq<Record>)
      reads R, U, A
    {
      (R.counted, U.counted, A.counted)
    }

    constructor (op: array<bool>, om: array<bool>, offset: nat)
      requires op.Length == om.Length
      ensures Valid() && this.op == op && this.om == om && this.offset == offset && Counted() == ([], [], [])
      ensures fresh(Repr)
    {
      var r := new MethCounters(op, om, offset);
      var u := new MethCounters(op, om, offset);
      var a := new MethCounters(op, om, offset);
      R, U, A := r, u, a;
      this.op := op;
      this.om := om;
      this.offset := offset;
      Repr := {r, u, a, r.Tp, r.Mp, r.Tm, r.Mm, u.Tp, u.Mp, u.Tm, u.Mm, a.Tp, a.Mp, a.Tm, a.Mm};
    }

    /** addHitToCountsAllele: count the record as addHitToCounts does, in the
        counter set its XV tag selects. */
    method AddHitToCountsAllele(h: Record)
      requires Valid() && Fits(h, offset, op.Length) && h.xv.Some?
      modifies Repr
      ensures Valid()
      ensures Counted() == Extend(old(Counted()), [h])
    {
      var a := AlleleFlagToInt(h.xv.value);
      ghost var r, u, x := R.counted, U.counted, A.counted;
      RoutedSingle(h, 0);
      RoutedSingle(h, 1);
      RoutedSingle(h, 2);
      if a == 0 {
        R.AddHitToCounts(h);
        assert U.counted == u + Routed([h], 1) && A.counted == x + Routed([h], 2);
      } else if a == 1 {
        U.AddHitToCounts(h);
        assert R.counted == r + Routed([h], 0) && A.counted == x + Routed([h], 2);
      } else {
        A.AddHitToCounts(h);
        assert R.counted == r + Routed([h], 0) && U.counted == u + Routed([h], 1);
      }
    }

    /** The records bam_fetch hands to addHitToCountsAllele for one file. */
    method AddHits(hits: seq<Record>)
      requires Valid() && forall h :: h in hits ==> Fits(h, offset, op.Length) && h.xv.Some?
      modifies Repr
      ensures Valid() && Tagged(hits) && Counted() == Extend(old(Counted()), hits)
    {
      var i := 0;
      assert hits[..0] == [];
      ExtendEmpty(Counted());
      while i < |hits|
        invariant i <= |hits| && Valid() && Tagged(hits[..i]) && Counted() == Extend(old(Counted()), hits[..i])
      {
        AddHitToCountsAllele(hits[i]);
        assert hits[..i + 1] == hits[..i] + [hits[i]];
        ExtendAppend(old(Counted()), hits[..i], [hits[i]]);
        i := i + 1;
      }
      assert hits[..i] == hits;
    }

    /** The loop over the input files. */
    method AddFiles(files: seq<seq<Record>>)
      requires Valid() && forall f, h :: f in files && h in f ==> Fits(h, offset, op.Length) && h.xv.Some?
      modifies Repr
      ensures Valid() && Tagged(Flatten(files)) && Counted() == Extend(old(Counted()), Flatten(files))
    {
      var f := 0;
      assert Flatten(files[..0]) == [] by { assert files[..0] == []; }
      ExtendEmpty(Counted());
      while f < |files|
        invariant f <= |files| && Valid() && Tagged(Flatten(files[..f])) && Counted() == Extend(old(Counted()), Flatten(files[..f]))
      {
        assert forall h :: h in files[f] ==> Fits(h, offset, op.Length) && h.xv.Some?;
        AddHits(files[f]);
        assert files[..f + 1][..f] == files[..f];
        ExtendAppend(old(Counted()), Flatten(files[..f]), files[f]);
        f := f + 1;
      }
      assert files[..f] == files;
    }

    /** The counter arrays of one allele, as values. */
    ghost function Snapshot(c: MethCounters): Tallies
      reads c.Tp, c.Mp, c.Tm, c.Mm
    {
      Tallies(c.Tp[..], c.Mp[..], c.Tm[..], c.Mm[..])
    }

    /** Per index, the plus totals of the three alleles added up. */
    ghost function TotalPlus3(): seq<nat>
      requires Sized()
      reads R.Tp, U.Tp, A.Tp
    {
      Sum3(R.Tp[..], U.Tp[..], A.Tp[..])
    }

    ghost function TotalMinus3(): seq<nat>
      requires Sized()
      reads R.Tm, U.Tm, A.Tm
    {
      Sum3(R.Tm[..], U.Tm[..], A.Tm[..])
    }

    /** The re-count of rows with a non-zero total for some allele. */
    method CountRows(mode: int, lo: nat, n: nat) returns (j: nat)
      requires Sized() && lo + n < op.Length && (mode == 0 || mode == 1 || mode == 2)
      ensures j <= |ReportSites(mode, false, op[..], om[..], TotalPlus3(), TotalMinus3(), lo, n)|
      ensures mode == 0 || Disjoint(op[..], om[..]) ==> j == |ReportSites(mode, false, op[..], om[..], TotalPlus3(), TotalMinus3(), lo, n)|
    {
      if mode == 2 || mode == 1 {
        j := CountSeparate(lo, n);
      } else {
        j := CountCollapsed(lo, n);
      }
    }

    /** The re-count of modes 1 and 2: one per index with a marked strand of
        non-zero total. */
    method CountSeparate(lo: nat, n: nat) returns (j: nat)
      requires Sized() && lo + n < op.Length
      ensures j <= |SeparateSites(false, op[..], om[..], TotalPlus3(), TotalMinus3(), lo, lo + n)|
      ensures Disjoint(op[..], om[..]) ==> j == |SeparateSites(false, op[..], om[..], TotalPlus3(), TotalMinus3(), lo, lo + n)|
    {
      ghost var P, M, TP, TM := op[..], om[..], TotalPlus3(), TotalMinus3();
      j := 0;
      var i := lo;
      while i < lo + n
        invariant lo <= i <= lo + n
        invariant j <= |SeparateSites(false, P, M, TP, TM, lo, i)|
        invariant Disjoint(P, M) ==> j == |SeparateSites(false, P, M, TP, TM, lo, i)|
      {
        j := PreCountAt(lo, i, j, P, M, TP, TM);
        i := i + 1;
      }
      assert i == lo + n;
    }

    /** One index of the re-count of modes 1 and 2: j counts one more when
        a marked strand at i has a non-zero total. */
    method PreCountAt(lo: nat, i: nat, j: nat, ghost P: seq<bool>, ghost M: seq<bool>, ghost TP: seq<nat>, ghost TM: seq<nat>)
      returns (j': nat)
      requires Sized() && lo <= i < op.Length
      requires P == op[..] && M == om[..] && TP == TotalPlus3() && TM == TotalMinus3()
      requires j <= |SeparateSites(false, P, M, TP, TM, lo, i)|
      requires Disjoint(P, M) ==> j == |SeparateSites(false, P, M, TP, TM, lo, i)|
      ensures j' <= |SeparateSites(false, P, M, TP, TM, lo, i + 1)|
      ensures Disjoint(P, M) ==> j' == |SeparateSites(false, P, M, TP, TM, lo, i + 1)|
    {
      assert TP[i] == R.Tp[i] + U.Tp[i] + A.Tp[i] && TM[i] == R.Tm[i] + U.Tm[i] + A.Tm[i];
      PreCountStep(P, M, TP, TM, i);
      assert |SeparateSites(false, P, M, TP, TM, lo, i + 1)|
          == |SeparateSites(false, P, M, TP, TM, lo, i)| + |SitesAt(false, P, M, TP, TM, i)|;
      assert Disjoint(P, M) ==> !(P[i] && M[i]);
      j' := j;
      if (op[i] && (R.Tp[i] > 0 || U.Tp[i] > 0 || A.Tp[i] > 0)) || (om[i] && (R.Tm[i] > 0 || U.Tm[i] > 0 || A.Tm[i] > 0)) {
        j' := j + 1;
      }
    }

    /** The re-count of mode 0: one per plus mark with a non-zero total on
        either strand. */
    method CountCollapsed(lo: nat, n: nat) returns (j: nat)
      requires Sized() && lo + n < op.Length
      ensures j == |CollapsedSites(false, op[..], TotalPlus3(), TotalMinus3(), lo, lo + n - 1)|
    {
      ghost var P, TP, TM := op[..], TotalPlus3(), TotalMinus3();
      j := 0;
      var i := lo;
      while i < lo + n - 1
        invariant lo <= i && (i <= lo + n - 1 || i == lo)
        invariant j == |CollapsedSites(false, P, TP, TM, lo, i)|
      {
        assert TP[i] == R.Tp[i] + U.Tp[i] + A.Tp[i] && TM[i + 1] == R.Tm[i + 1] + U.Tm[i + 1] + A.Tm[i + 1];
        if op[i] && (R.Tp[i] > 0 || U.Tp[i] > 0 || A.Tp[i] > 0 || R.Tm[i + 1] > 0 || U.Tm[i + 1] > 0 || A.Tm[i + 1] > 0) {
          j := j + 1;
        }
        i := i + 1;
      }
    }

    /** The fill loop of modes 1 and 2. */
    method ReportSeparate(keepZero: bool, lo: nat, n: nat) returns (rows: seq<AlleleRow>)
      requires Sized() && lo + n < op.Length
      ensures rows == AlleleRows(SeparateSites(keepZero, op[..], om[..], TotalPlus3(), TotalMinus3(), lo, lo + n),
                                 Snapshot(R), Snapshot(U), Snapshot(A), offset)
    {
      ghost var P, M, TP, TM := op[..], om[..], TotalPlus3(), TotalMinus3();
      ghost var r, u, a := Snapshot(R), Snapshot(U), Snapshot(A);
      rows := [];
      var i := lo;
      while i < lo + n
        invariant lo <= i <= lo + n
        invariant rows == AlleleRows(SeparateSites(keepZero, P, M, TP, TM, lo, i), r, u, a, offset)
      {
        rows := SeparateRowsAt(keepZero, lo, i, rows, P, M, TP, TM, r, u, a);
        i := i + 1;
      }
      assert i == lo + n;
    }

    /** One step of the fill loop of modes 1 and 2: the '+' row, then the '-'
        row, each written when its index is marked and, unless zero rows are
        kept, some allele has a non-zero total there. */
    method SeparateRowsAt(keepZero: bool, lo: nat, i: nat, rows: seq<AlleleRow>,
                          ghost P: seq<bool>, ghost M: seq<bool>, ghost TP: seq<nat>, ghost TM: seq<nat>,
                          ghost r: Tallies, ghost u: Tallies, ghost a: Tallies) returns (rows': seq<AlleleRow>)
      requires Sized() && lo <= i && i + 1 < op.Length
      requires P == op[..] && M == om[..] && TP == TotalPlus3() && TM == TotalMinus3()
      requires r == Snapshot(R) && u == Snapshot(U) && a == Snapshot(A)
      requires rows == AlleleRows(SeparateSites(keepZero, P, M, TP, TM, lo, i), r, u, a, offset)
      ensures rows' == AlleleRows(SeparateSites(keepZero, P, M, TP, TM, lo, i + 1), r, u, a, offset)
    {
      assert TP[i] == R.Tp[i] + U.Tp[i] + A.Tp[i] && TM[i] == R.Tm[i] + U.Tm[i] + A.Tm[i];
      var plus, minus := [], [];
      if op[i] && (keepZero || R.Tp[i] > 0 || U.Tp[i] > 0 || A.Tp[i] > 0) {
        plus := [AlleleRow(i + offset + 1, Plus, R.Tp[i], R.Mp[i], U.Tp[i], U.Mp[i], A.Tp[i], A.Mp[i])];
      }
      if om[i] && (keepZero || R.Tm[i] > 0 || U.Tm[i] > 0 || A.Tm[i] > 0) {
        minus := [AlleleRow(i + offset + 1, Minus, R.Tm[i], R.Mm[i], U.Tm[i], U.Mm[i], A.Tm[i], A.Mm[i])];
      }
      SeparateStep(keepZero, P, M, TP, TM, lo, i, r, u, a, offset, rows, plus + minus);
      rows' := rows + (plus + minus);
    }

    /** The fill loop of mode 0: one '*' row per plus mark, adding the minus
        counts one index further on, allele by allele. */
    method ReportCollapsed(keepZero: bool, lo: nat, n: nat) returns (rows: seq<AlleleRow>)
      requires Sized() && lo + n < op.Length
      ensures rows == AlleleRows(CollapsedSites(keepZero, op[..], TotalPlus3(), TotalMinus3(), lo, lo + n - 1),
                                 Snapshot(R), Snapshot(U), Snapshot(A), offset)
    {
      ghost var P, TP, TM := op[..], TotalPlus3(), TotalMinus3();
      ghost var r, u, a := Snapshot(R), Snapshot(U), Snapshot(A);
      rows := [];
      var i := lo;
      while i < lo + n - 1
        invariant lo <= i && (i <= lo + n - 1 || i == lo)
        invariant rows == AlleleRows(CollapsedSites(keepZero, P, TP, TM, lo, i), r, u, a, offset)
      {
        rows := CollapsedRowAt(keepZero, lo, i, rows, P, TP, TM, r, u, a);
        i := i + 1;
      }
    }

    /** One step of the fill loop of mode 0: the '*' row of index i, each
        allele's plus counts at i added to its minus counts at i + 1. */
    method CollapsedRowAt(keepZero: bool, lo: nat, i: nat, rows: seq<AlleleRow>,
                          ghost P: seq<bool>, ghost TP: seq<nat>, ghost TM: seq<nat>,
                          ghost r: Tallies, ghost u: Tallies, ghost a: Tallies) returns (rows': seq<AlleleRow>)
      requires Sized() && lo <= i && i + 1 < op.Length
      requires P == op[..] && TP == TotalPlus3() && TM == TotalMinus3()
      requires r == Snapshot(R) && u == Snapshot(U) && a == Snapshot(A)
      requires rows == AlleleRows(CollapsedSites(keepZero, P, TP, TM, lo, i), r, u, a, offset)
      ensures rows' == AlleleRows(CollapsedSites(keepZero, P, TP, TM, lo, i + 1), r, u, a, offset)
    {
      assert TP[i] == R.Tp[i] + U.Tp[i] + A.Tp[i] && TM[i + 1] == R.Tm[i + 1] + U.Tm[i + 1] + A.Tm[i + 1];
      var here := [];
      if op[i] && (keepZero || R.Tp[i] > 0 || U.Tp[i] > 0 || A.Tp[i] > 0 || R.Tm[i + 1] > 0 || U.Tm[i + 1] > 0 || A.Tm[i + 1] > 0) {
        here := [AlleleRow(i + offset + 1, Both,
                           R.Tp[i] + R.Tm[i + 1], R.Mp[i] + R.Mm[i + 1],
                           U.Tp[i] + U.Tm[i + 1], U.Mp[i] + U.Mm[i + 1],
                           A.Tp[i] + A.Tm[i + 1], A.Mp[i] + A.Mm[i + 1])];
      }
      CollapsedStep(keepZero, P, TP, TM, lo, i, r, u, a, offset, rows, here);
      rows' := rows + here;
    }

    /** The fill loop: the rows of the report, in order. */
    method Report(mode: int, keepZero: bool, lo: nat, n: nat) returns (rows: seq<AlleleRow>)
      requires Sized() && lo + n < op.Length
      ensures rows == AlleleRows(ReportSites(mode, keepZero, op[..], om[..], TotalPlus3(), TotalMinus3(), lo, n),
                                 Snapshot(R), Snapshot(U), Snapshot(A), offset)
    {
      if mode == 0 {
        rows := ReportCollapsed(keepZero, lo, n);
      } else {
        rows := ReportSeparate(keepZero, lo, n);
      }
    }
  }

  /** Every record of every file fits the arrays and carries an XV tag. */
  lemma {:induction false} FlattenFits(files: seq<seq<Record>>, offset: nat, size: nat)
    requires forall f, h :: f in files && h in f ==> Fits(h, offset, size) && h.xv.Some?
    ensures Readable(Flatten(files)) && Tagged(Flatten(files))
  {
    if files != [] {
      var p := files[..|files| - 1];
      assert forall f :: f in p ==> f in files;
      FlattenFits(p, offset, size);
    }
  }

  /** The counting phase of quantify_methylation_allele: fresh zeroed
      counters over the masks, then every record of every file counted in the
      counter set of its allele. */
  method CountRegion(files: seq<seq<Record>>, op: array<bool>, om: array<bool>, offset: nat) returns (c: AlleleCounters)
    requires op.Length == om.Length
    requires forall f, h :: f in files && h in f ==> Fits(h, offset, op.Length) && h.xv.Some?
    ensures c.Sized() && c.op == op && c.om == om && c.offset == offset
    ensures Readable(Flatten(files)) && Tagged(Flatten(files))
    ensures c.Snapshot(c.R) == AlleleCounts(Flatten(files), 0, offset, op[..], om[..])
    ensures c.Snapshot(c.U) == AlleleCounts(Flatten(files), 1, offset, op[..], om[..])
    ensures c.Snapshot(c.A) == AlleleCounts(Flatten(files), 2, offset, op[..], om[..])
  {
    FlattenFits(files, offset, op.Length);
    c := new AlleleCounters(op, om, offset);
    c.AddFiles(files);
    ghost var hits := Flatten(files);
    assert c.R.counted == Routed(hits, 0) && c.U.counted == Routed(hits, 1) && c.A.counted == Routed(hits, 2) by {
      assert [] + Routed(hits, 0) == Routed(hits, 0);
      assert [] + Routed(hits, 1) == Routed(hits, 1);
      assert [] + Routed(hits, 2) == Routed(hits, 2);
    }
    c.R.Tallies();
    c.U.Tallies();
    c.A.Tallies();
  }

  /** quantify_methylation_allele after the mask scan: count, re-count when
      zero rows are dropped, allocate nOutput rows and fill them. */
  method ReportRegion(files: seq<seq<Record>>, s: string, start: nat, mode: int, keepZero: bool,
                      op: array<bool>, om: array<bool>, nMarked: nat) returns (rows: seq<AlleleRow>)
    requires mode == 0 || mode == 1 || mode == 2
    requires op.Length == BufferSize(s) && om.Length == BufferSize(s)
    requires op[..] == PlusMask(s, mode, LeftExtension(start), BufferSize(s))
    requires om[..] == MinusMask(s, mode, LeftExtension(start), BufferSize(s))
    requires nMarked == NOutput(s, mode)
    requires forall f, h :: f in files && h in f ==> Fits(h, Offset(start), BufferSize(s)) && h.xv.Some?
    ensures Readable(Flatten(files)) && Tagged(Flatten(files)) && rows == AlleleReport(Flatten(files), s, start, mode, keepZero)
  {
    var ext := LeftExtension(start);
    var nOutput := nMarked;
    ghost var P, M := op[..], om[..];
    var counters := CountRegion(files, op, om, start - ext);
    ghost var TP, TM := counters.TotalPlus3(), counters.TotalMinus3();
    if !keepZero {
      nOutput := counters.CountRows(mode, ext, |s|);
    }
    rows := counters.Report(mode, keepZero, ext, |s|);
    // The result vectors are allocated with nOutput entries: the fill loop
    // writes exactly that many.
    assert |rows| == nOutput by {
      if keepZero {
        RowCountIsNOutput(s, mode, P, M, TP, TM, ext);
      } else {
        assert Disjoint(P, M) by {
          forall k | 0 <= k < |P| ensures !(P[k] && M[k]) {
            MarksDisjoint(s, mode, ext, k);
          }
        }
      }
    }
  }

  /** quantify_methylation_allele for one region: files holds, per input
      file, the records bam_fetch delivers for the region. An unknown mode is
      an error; otherwise the rows are those of AlleleReport. */
  method QuantifyMethylationAllele(files: seq<seq<Record>>, s: string, regionStart: int, mode: int, keepZero: bool)
    returns (r: Result<seq<AlleleRow>>)
    requires regionStart >= 1
    requires forall f, h :: f in files && h in f ==> Fits(h, Offset(regionStart - 1), BufferSize(s)) && h.xv.Some?
    ensures r.Err? <==> !(mode == 0 || mode == 1 || mode == 2)
    ensures r.Err? ==> r.msg == ModeError(mode)
    ensures r.Ok? ==> Readable(Flatten(files)) && Tagged(Flatten(files))
                      && r.value == AlleleReport(Flatten(files), s, regionStart - 1, mode, keepZero)
  {
    var start := regionStart - 1;
    var op, om, marked := NewMasks(s, mode, LeftExtension(start));
    if marked.Err? {
      return Err(marked.msg);
    }
    var rows := ReportRegion(files, s, start, mode, keepZero, op, om, marked.value);
    r := Ok(rows);
  }

  // ---------------------------------------------------------------------
  // What the report promises

  /** Per index, the three allele counters add up to the counter over all
      records. */
  lemma TallySeqRouted(c: Counter, hits: seq<Record>, offset: nat, marks: seq<bool>)
    requires Readable(hits) && Tagged(hits)
    ensures Readable(Routed(hits, 0)) && Readable(Routed(hits, 1)) && Readable(Routed(hits, 2))
    ensures Sum3(TallySeq(c, Routed(hits, 0), offset, marks), TallySeq(c, Routed(hits, 1), offset, marks),
                 TallySeq(c, Routed(hits, 2), offset, marks)) == TallySeq(c, hits, offset, marks)
  {
    RoutedReadable(hits, 0);
    RoutedReadable(hits, 1);
    RoutedReadable(hits, 2);
    forall k | 0 <= k < |marks| {
      TallyRouted(c, hits, offset, marks[k], k);
    }
  }

  lemma SiteTotalSum3(x: Site, r: seq<nat>, u: seq<nat>, a: seq<nat>, rm: seq<nat>, um: seq<nat>, am: seq<nat>)
    requires |r| == |u| == |a| == |rm| == |um| == |am|
    ensures SiteTotal(x, Sum3(r, u, a), Sum3(rm, um, am)) == SiteTotal(x, r, rm) + SiteTotal(x, u, um) + SiteTotal(x, a, am)
  {
  }

  /** The allele report refines the plain report: the same rows at the same
      positions and strands, the three allele columns of each row adding up
      to its total and methylated count. */
  lemma AlleleReportRefines(hits: seq<Record>, s: string, start: nat, mode: int, keepZero: bool)
    requires Readable(hits) && Tagged(hits)
    ensures var ar, mr := AlleleReport(hits, s, start, mode, keepZero), MethReport(hits, s, start, mode, keepZero);
      && |ar| == |mr|
      && forall j :: 0 <= j < |ar| ==>
           && ar[j].pos == mr[j].pos && ar[j].strand == mr[j].strand
           && ar[j].tR + ar[j].tU + ar[j].tA == mr[j].t
           && ar[j].mR + ar[j].mU + ar[j].mA == mr[j].m
  {
    var ext, offset, size := LeftExtension(start), Offset(start), BufferSize(s);
    var op, om := PlusMask(s, mode, ext, size), MinusMask(s, mode, ext, size);
    var r, u, a := AlleleCounts(hits, 0, offset, op, om), AlleleCounts(hits, 1, offset, op, om), AlleleCounts(hits, 2, offset, op, om);
    var tp, tm := TallySeq(TotalPlus, hits, offset, op), TallySeq(TotalMinus, hits, offset, om);
    var mp, mm := TallySeq(MethPlus, hits, offset, op), TallySeq(MethMinus, hits, offset, om);
    TallySeqRouted(TotalPlus, hits, offset, op);
    TallySeqRouted(TotalMinus, hits, offset, om);
    TallySeqRouted(MethPlus, hits, offset, op);
    TallySeqRouted(MethMinus, hits, offset, om);
    assert Sum3(r.tp, u.tp, a.tp) == tp && Sum3(r.tm, u.tm, a.tm) == tm;
    assert Sum3(r.mp, u.mp, a.mp) == mp && Sum3(r.mm, u.mm, a.mm) == mm;
    var xs := ReportSites(mode, keepZero, op, om, tp, tm, ext, |s|);
    var ar, mr := AlleleReport(hits, s, start, mode, keepZero), MethReport(hits, s, start, mode, keepZero);
    assert ar == AlleleRows(xs, r, u, a, offset);
    assert mr == Rows(xs, tp, mp, tm, mm, offset);
    forall j | 0 <= j < |ar|
      ensures ar[j].tR + ar[j].tU + ar[j].tA == mr[j].t && ar[j].mR + ar[j].mU + ar[j].mA == mr[j].m
    {
      SiteTotalSum3(xs[j], r.tp, u.tp, a.tp, r.tm, u.tm, a.tm);
      SiteTotalSum3(xs[j], r.mp, u.mp, a.mp, r.mm, u.mm, a.mm);
    }
  }

  /** With returnZero, the allele report has nOutput rows, as the plain
      report does. */
  lemma AlleleReportRowCount(hits: seq<Record>, s: string, start: nat, mode: int)
    requires Readable(hits) && Tagged(hits) && (mode == 0 || mode == 1 || mode == 2)
    ensures |AlleleReport(hits, s, start, mode, true)| == NOutput(s, mode)
  {
    AlleleReportRefines(hits, s, start, mode, true);
    MethReportRowCount(hits, s, start, mode);
  }
}
