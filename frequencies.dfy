/** The nucleotide alignment frequency profiler
    (nucleotide_alignment_frequencies.c): every alignment lying wholly inside
    a reference window adds its aligned bases to a cycle x read base x
    reference base matrix, read-1 insert sizes to a fragment-length
    histogram, and (while room is left) its "pos_isize" key to a list whose
    number of distinct entries measures start-position uniqueness. */
module Frequencies {
  import opened Bam

  // ---------------------------------------------------------------------
  // Base codes and matrix cells

  /** The codes of bam_nt16_table for the characters the matrix tells apart:
      A 1, C 2, G 4, T 8 in either case, the digits '0' to '3' likewise 1,
      2, 4, 8, and '=' 0; every other character gets a code outside
      {1, 2, 4, 8}, shown here as 15 (N). */
  function Nt16(ch: char): Nibble {
    match ch
    case 'A' => 1
    case 'a' => 1
    case 'C' => 2
    case 'c' => 2
    case 'G' => 4
    case 'g' => 4
    case 'T' => 8
    case 't' => 8
    case '0' => 1
    case '1' => 2
    case '2' => 4
    case '3' => 8
    case '=' => 0
    case _ => 15
  }

  /** bit2idx: the 4-bit code of a base to its matrix index. */
  const Bit2Idx: seq<nat> := [4, 0, 1, 4, 2, 4, 4, 4, 3, 4, 4, 4, 4, 4, 4, 4]

  /** A, C, G and T get indices 0 to 3 and every other code 4. */
  function BaseIndex(c: Nibble): (i: nat)
    ensures i < 5
    ensures i == 0 <==> c == BaseA
    ensures i == 1 <==> c == BaseC
    ensures i == 2 <==> c == BaseG
    ensures i == 3 <==> c == BaseT
  {
    Bit2Idx[c]
  }

  /** One entry of the matrix: reference base index, read base index and
      sequencing cycle. */
  datatype Cell = Cell(refBase: nat, readBase: nat, cycle: nat)

  predicate ValidCell(c: Cell, qlen: nat) {
    c.refBase < 5 && c.readBase < 5 && c.cycle < qlen
  }

  /** The offset ref + 5*read + 25*cycle of a cell in the flat count vector. */
  function Flat(c: Cell): nat {
    c.refBase + 5 * c.readBase + 25 * c.cycle
  }

  /** The offset can be decoded back into its three indices, and every cell
      of a read of qlen cycles lies in the first 25*qlen entries. */
  lemma FlatDecode(c: Cell, qlen: nat)
    requires ValidCell(c, qlen)
    ensures Flat(c) % 5 == c.refBase
    ensures Flat(c) / 5 % 5 == c.readBase
    ensures Flat(c) / 25 == c.cycle
    ensures Flat(c) < 25 * qlen
  {
    var r := c.refBase + 5 * c.readBase;
    assert Flat(c) == r + 25 * c.cycle && r < 25;
    assert Flat(c) / 25 == c.cycle;
    assert Flat(c) / 5 == c.readBase + 5 * c.cycle;
  }

  /** The cycle of read index z: z itself on the forward strand, mirrored to
      qlen-1-z on the reverse strand (the code decrements qlen first). */
  function Cycle(reverse: bool, qlen: nat, z: nat): (k: nat)
    requires z < qlen
    ensures k < qlen
  {
    if reverse then qlen - 1 - z else z
  }

  /** The cell of reference index x aligned to read index z. */
  function AlignedCell(ref: string, bases: seq<Nibble>, reverse: bool, qlen: nat, x: nat, z: nat): (c: Cell)
    requires x < |ref| && z < qlen <= |bases|
    ensures ValidCell(c, qlen)
  {
    Cell(BaseIndex(Nt16(ref[x])), BaseIndex(bases[z]), Cycle(reverse, qlen, z))
  }

  // ---------------------------------------------------------------------
  // The CIGAR walk as a specification

  /** M, = and X compare read bases with reference bases. */
  predicate Aligned(k: OpKind) {
    k == Match || k == SeqMatch || k == SeqDiff
  }

  /** The first n cells of an aligned block starting at reference index x
      and read index y. */
  function BlockCells(ref: string, bases: seq<Nibble>, reverse: bool, qlen: nat, x: nat, y: nat, n: nat): seq<Cell>
    requires x + n <= |ref| && y + n <= qlen <= |bases|
  {
    seq(n, j requires 0 <= j < n => AlignedCell(ref, bases, reverse, qlen, x + j, y + j))
  }

  lemma BlockCellsSnoc(ref: string, bases: seq<Nibble>, reverse: bool, qlen: nat, x: nat, y: nat, n: nat)
    requires x + n < |ref| && y + n < qlen <= |bases|
    ensures BlockCells(ref, bases, reverse, qlen, x, y, n + 1)
         == BlockCells(ref, bases, reverse, qlen, x, y, n) + [AlignedCell(ref, bases, reverse, qlen, x + n, y + n)]
  {
  }

  /** The cells one operation counts when the walk stands at (x, y). */
  function OpCells(ref: string, bases: seq<Nibble>, reverse: bool, qlen: nat, x: nat, y: nat, op: CigarOp): seq<Cell>
    requires Aligned(op.kind) ==> x + op.len <= |ref| && y + op.len <= qlen <= |bases|
  {
    if Aligned(op.kind) then BlockCells(ref, bases, reverse, qlen, x, y, op.len) else []
  }

  /** The cells of a whole CIGAR starting at reference index x0 and read
      index 0; the walk stands at x0 + RefLen and QueryLen of the operations
      already walked. */
  function Cells(ref: string, bases: seq<Nibble>, reverse: bool, qlen: nat, x0: nat, c: seq<CigarOp>): seq<Cell>
    requires x0 + RefLen(c) <= |ref| && QueryLen(c) <= qlen <= |bases|
    decreases |c|
  {
    if |c| == 0 then []
    else
      var p := c[..|c| - 1];
      Cells(ref, bases, reverse, qlen, x0, p)
        + OpCells(ref, bases, reverse, qlen, x0 + RefLen(p), QueryLen(p), c[|c| - 1])
  }

  /** The number of read bases the aligned operations cover. */
  function AlignedLen(c: seq<CigarOp>): nat {
    if |c| == 0 then 0
    else AlignedLen(c[..|c| - 1]) + (if Aligned(c[|c| - 1].kind) then c[|c| - 1].len else 0)
  }

  /** Every aligned base is counted exactly once: a CIGAR yields as many
      cells as its M, = and X operations cover. */
  lemma {:induction false} CellsCount(ref: string, bases: seq<Nibble>, reverse: bool, qlen: nat, x0: nat, c: seq<CigarOp>)
    requires x0 + RefLen(c) <= |ref| && QueryLen(c) <= qlen <= |bases|
    ensures |Cells(ref, bases, reverse, qlen, x0, c)| == AlignedLen(c)
    decreases |c|
  {
    if |c| > 0 {
      CellsCount(ref, bases, reverse, qlen, x0, c[..|c| - 1]);
    }
  }

  /** The cells of one operation: cell j of an aligned block pairs
      reference index x + j with read index y + j. */
  lemma OpCellsAt(ref: string, bases: seq<Nibble>, reverse: bool, qlen: nat, x: nat, y: nat, op: CigarOp)
    requires Aligned(op.kind) ==> x + op.len <= |ref| && y + op.len <= qlen <= |bases|
    ensures |OpCells(ref, bases, reverse, qlen, x, y, op)| == if Aligned(op.kind) then op.len else 0
    ensures forall j :: 0 <= j < |OpCells(ref, bases, reverse, qlen, x, y, op)| ==>
      OpCells(ref, bases, reverse, qlen, x, y, op)[j] == AlignedCell(ref, bases, reverse, qlen, x + j, y + j)
  {
  }

  /** Every counted cell has base indices below 5 and a cycle below the
      query length, so its offset lies below 25*qlen. */
  lemma {:induction false} CellsValid(ref: string, bases: seq<Nibble>, reverse: bool, qlen: nat, x0: nat, c: seq<CigarOp>)
    requires x0 + RefLen(c) <= |ref| && QueryLen(c) <= qlen <= |bases|
    ensures forall k :: 0 <= k < |Cells(ref, bases, reverse, qlen, x0, c)| ==>
      ValidCell(Cells(ref, bases, reverse, qlen, x0, c)[k], qlen)
    decreases |c|
  {
    if |c| > 0 {
      var p := c[..|c| - 1];
      CellsValid(ref, bases, reverse, qlen, x0, p);
      CellsLast(ref, bases, reverse, qlen, x0, c);
      OpCellsAt(ref, bases, reverse, qlen, x0 + RefLen(p), QueryLen(p), c[|c| - 1]);
    }
  }

  /** t holds the cells of f with every cycle k mirrored to qlen-1-k. */
  predicate Mirrored(t: seq<Cell>, f: seq<Cell>, qlen: nat) {
    |t| == |f|
    && forall k :: 0 <= k < |t| ==> f[k].cycle < qlen && t[k] == f[k].(cycle := qlen - 1 - f[k].cycle)
  }

  lemma MirroredAppend(t: seq<Cell>, f: seq<Cell>, t': seq<Cell>, f': seq<Cell>, qlen: nat)
    requires Mirrored(t, f, qlen) && Mirrored(t', f', qlen)
    ensures Mirrored(t + t', f + f', qlen)
  {
    forall k | |t| <= k < |t| + |t'|
      ensures (f + f')[k].cycle < qlen && (t + t')[k] == (f + f')[k].(cycle := qlen - 1 - (f + f')[k].cycle)
    {
      assert (t + t')[k] == t'[k - |t|] && (f + f')[k] == f'[k - |t|];
    }
  }

  /** A reverse-strand read counts the same bases as the forward-strand
      read with the same bases, in mirrored cycles. */
  lemma {:induction false} CellsMirror(ref: string, bases: seq<Nibble>, qlen: nat, x0: nat, c: seq<CigarOp>)
    requires x0 + RefLen(c) <= |ref| && QueryLen(c) <= qlen <= |bases|
    ensures Mirrored(Cells(ref, bases, true, qlen, x0, c), Cells(ref, bases, false, qlen, x0, c), qlen)
    decreases |c|
  {
    if |c| > 0 {
      var p := c[..|c| - 1];
      CellsMirror(ref, bases, qlen, x0, p);
      CellsLast(ref, bases, true, qlen, x0, c);
      CellsLast(ref, bases, false, qlen, x0, c);
      var x, y, op := x0 + RefLen(p), QueryLen(p), c[|c| - 1];
      OpCellsAt(ref, bases, true, qlen, x, y, op);
      OpCellsAt(ref, bases, false, qlen, x, y, op);
      MirroredAppend(Cells(ref, bases, true, qlen, x0, p), Cells(ref, bases, false, qlen, x0, p),
        OpCells(ref, bases, true, qlen, x, y, op), OpCells(ref, bases, false, qlen, x, y, op), qlen);
    }
  }

  /** The cycles of s strictly increase and lie in [lo, hi). */
  predicate CyclesIncrease(s: seq<Cell>, lo: nat, hi: nat) {
    (forall k :: 0 <= k < |s| ==> lo <= s[k].cycle < hi)
    && (forall k, m :: 0 <= k < m < |s| ==> s[k].cycle < s[m].cycle)
  }

  lemma CyclesIncreaseAppend(s: seq<Cell>, t: seq<Cell>, lo: nat, mid: nat, hi: nat)
    requires lo <= mid <= hi
    requires CyclesIncrease(s, lo, mid) && CyclesIncrease(t, mid, hi)
    ensures CyclesIncrease(s + t, lo, hi)
  {
    forall k | 0 <= k < |s + t| ensures lo <= (s + t)[k].cycle < hi {
      if k >= |s| {
        assert (s + t)[k] == t[k - |s|];
      }
    }
    forall k, m | 0 <= k < m < |s + t| ensures (s + t)[k].cycle < (s + t)[m].cycle {
      if m < |s| {
        assert (s + t)[k] == s[k] && (s + t)[m] == s[m];
      } else if k < |s| {
        assert (s + t)[k] == s[k] && (s + t)[m] == t[m - |s|];
      } else {
        assert (s + t)[k] == t[k - |s|] && (s + t)[m] == t[m - |s|];
      }
    }
  }

  /** The forward cycles of one operation run from y up to the read index
      after it. */
  lemma OpCyclesIncrease(ref: string, bases: seq<Nibble>, qlen: nat, x: nat, y: nat, op: CigarOp)
    requires Aligned(op.kind) ==> x + op.len <= |ref| && y + op.len <= qlen <= |bases|
    ensures CyclesIncrease(OpCells(ref, bases, false, qlen, x, y, op), y, y + if ConsumesQuery(op.kind) then op.len else 0)
  {
    OpCellsAt(ref, bases, false, qlen, x, y, op);
  }

  /** On the forward strand the cycles of a record strictly increase and
      stay below the walked query length: no cycle is counted twice. */
  lemma {:induction false} ForwardCyclesIncrease(ref: string, bases: seq<Nibble>, qlen: nat, x0: nat, c: seq<CigarOp>)
    requires x0 + RefLen(c) <= |ref| && QueryLen(c) <= qlen <= |bases|
    ensures CyclesIncrease(Cells(ref, bases, false, qlen, x0, c), 0, QueryLen(c))
    decreases |c|
  {
    if |c| > 0 {
      var p := c[..|c| - 1];
      ForwardCyclesIncrease(ref, bases, qlen, x0, p);
      CellsLast(ref, bases, false, qlen, x0, c);
      var x, y, op := x0 + RefLen(p), QueryLen(p), c[|c| - 1];
      OpCyclesIncrease(ref, bases, qlen, x, y, op);
      CyclesIncreaseAppend(Cells(ref, bases, false, qlen, x0, p), OpCells(ref, bases, false, qlen, x, y, op),
        0, QueryLen(p), QueryLen(c));
    }
  }

  // ---------------------------------------------------------------------
  // Counting into vectors

  /** Adds one to entry i; an index outside the vector changes nothing (the
      profiler never produces one, see Fits). */
  function Bump(a: seq<int>, i: int): seq<int> {
    if 0 <= i < |a| then a[i := a[i] + 1] else a
  }

  /** Adds one at the offset of every cell, in order. */
  function BumpCells(a: seq<int>, cs: seq<Cell>): (r: seq<int>)
    ensures |r| == |a|
    decreases |cs|
  {
    if |cs| == 0 then a else Bump(BumpCells(a, cs[..|cs| - 1]), Flat(cs[|cs| - 1]))
  }

  /** How many of the cells have offset k. */
  function Occurrences(cs: seq<Cell>, k: nat): nat {
    if |cs| == 0 then 0
    else Occurrences(cs[..|cs| - 1], k) + (if Flat(cs[|cs| - 1]) == k then 1 else 0)
  }

  /** Each entry grows by the number of cells at its offset and by nothing
      else. */
  lemma {:induction false} BumpCellsCounts(a: seq<int>, cs: seq<Cell>, k: nat)
    requires k < |a|
    ensures BumpCells(a, cs)[k] == a[k] + Occurrences(cs, k)
    decreases |cs|
  {
    if |cs| > 0 {
      BumpCellsCounts(a, cs[..|cs| - 1], k);
    }
  }

  lemma {:induction false} BumpCellsAppend(a: seq<int>, s: seq<Cell>, t: seq<Cell>, u: seq<Cell>)
    requires u == s + t
    ensures BumpCells(a, u) == BumpCells(BumpCells(a, s), t)
    decreases |t|
  {
    if |t| == 0 {
      assert u == s;
    } else {
      var t' := t[..|t| - 1];
      assert u[..|u| - 1] == s + t';
      BumpCellsAppend(a, s, t', s + t');
    }
  }

  lemma BumpCellsSnoc(a: seq<int>, s: seq<Cell>, c: Cell)
    ensures BumpCells(a, s + [c]) == Bump(BumpCells(a, s), Flat(c))
  {
    assert (s + [c])[..|s|] == s;
  }

  // ---------------------------------------------------------------------
  // The CIGAR walk as code

  /** The inner loop of an M, = or X operation: counts the cells of the
      block up to the reference terminator (index |ref|, the NUL ending the
      C string), and tells how many bases it counted. */
  method CountBlock(dist: array<int>, ref: string, bases: seq<Nibble>, reverse: bool, qlen: nat, x: nat, y: nat, l: nat)
    returns (n: nat)
    requires x <= |ref| && y + l <= qlen <= |bases| && 25 * qlen <= dist.Length
    modifies dist
    ensures n == if x + l <= |ref| then l else |ref| - x
    ensures dist[..] == BumpCells(old(dist[..]), BlockCells(ref, bases, reverse, qlen, x, y, n))
  {
    n := 0;
    while n < l
      invariant n <= l && x + n <= |ref|
      invariant dist[..] == BumpCells(old(dist[..]), BlockCells(ref, bases, reverse, qlen, x, y, n))
    {
      if x + n == |ref| {
        break;
      }
      var cell := AlignedCell(ref, bases, reverse, qlen, x + n, y + n);
      FlatDecode(cell, qlen);
      BlockCellsSnoc(ref, bases, reverse, qlen, x, y, n);
      BumpCellsSnoc(old(dist[..]), BlockCells(ref, bases, reverse, qlen, x, y, n), cell);
      dist[Flat(cell)] := dist[Flat(cell)] + 1;
      n := n + 1;
    }
  }

  /** The loop of a D operation: it only looks for the reference terminator
      under the deleted bases. */
  method ScanDeletion(ref: string, x: nat, l: nat) returns (n: nat)
    requires x <= |ref|
    ensures n == if x + l <= |ref| then l else |ref| - x
  {
    n := 0;
    while n < l
      invariant n <= l && x + n <= |ref|
    {
      if x + n == |ref| {
        break;
      }
      n := n + 1;
    }
  }

  /** One iteration of the CIGAR loop at reference index x and read index
      y: M, = and X count their block, D scans for the terminator, and the
      coordinates advance as the operation consumes reference and read.
      When the operation ends before the end of the reference the
      terminator is not met. */
  method WalkOp(dist: array<int>, ghost d0: seq<int>, ghost before: seq<Cell>, ghost after: seq<Cell>,
                ref: string, bases: seq<Nibble>, reverse: bool, qlen: nat, op: CigarOp, x: nat, y: nat)
    returns (x': nat, y': nat, stopped: bool)
    requires x + (if ConsumesRef(op.kind) then op.len else 0) < |ref|
    requires y + (if ConsumesQuery(op.kind) then op.len else 0) <= qlen <= |bases| && 25 * qlen <= dist.Length
    requires after == before + OpCells(ref, bases, reverse, qlen, x, y, op)
    requires dist[..] == BumpCells(d0, before)
    modifies dist
    ensures !stopped
    ensures x' == x + (if ConsumesRef(op.kind) then op.len else 0)
    ensures y' == y + (if ConsumesQuery(op.kind) then op.len else 0)
    ensures dist[..] == BumpCells(d0, after)
  {
    x', y', stopped := x, y, false;
    if Aligned(op.kind) {
      var n := CountBlock(dist, ref, bases, reverse, qlen, x, y, op.len);
      BumpCellsAppend(d0, before, BlockCells(ref, bases, reverse, qlen, x, y, op.len), after);
      if n < op.len {
        stopped := true;
      } else {
        x', y' := x + op.len, y + op.len;
      }
    } else {
      assert after == before;
      if op.kind == Del {
        var n := ScanDeletion(ref, x, op.len);
        if n < op.len {
          stopped := true;
        } else {
          x' := x + op.len;
        }
      } else if op.kind == Ins || op.kind == SoftClip {
        y' := y + op.len;
      } else if op.kind == RefSkip {
        x' := x + op.len;
      }
    }
  }

  /** One unfolding of Cells: the last operation's cells come last. */
  lemma {:induction false} CellsLast(ref: string, bases: seq<Nibble>, reverse: bool, qlen: nat, x0: nat, c: seq<CigarOp>)
    requires |c| > 0
    requires x0 + RefLen(c) <= |ref| && QueryLen(c) <= qlen <= |bases|
    ensures Cells(ref, bases, reverse, qlen, x0, c)
         == Cells(ref, bases, reverse, qlen, x0, c[..|c| - 1])
            + OpCells(ref, bases, reverse, qlen, x0 + RefLen(c[..|c| - 1]), QueryLen(c[..|c| - 1]), c[|c| - 1])
  {
  }

  /** The cells of the first i + 1 operations extend those of the first i
      by the cells of operation i, counted where the walk then stands. */
  lemma CellsPrefix(ref: string, bases: seq<Nibble>, reverse: bool, qlen: nat, x0: nat, c: seq<CigarOp>, i: nat, x: nat, y: nat)
    requires i < |c| && qlen <= |bases|
    requires x == x0 + RefLen(c[..i]) && y == QueryLen(c[..i])
    requires x + (if ConsumesRef(c[i].kind) then c[i].len else 0) <= |ref|
    requires y + (if ConsumesQuery(c[i].kind) then c[i].len else 0) <= qlen
    requires x0 + RefLen(c[..i + 1]) <= |ref| && QueryLen(c[..i + 1]) <= qlen
    ensures Cells(ref, bases, reverse, qlen, x0, c[..i + 1])
         == Cells(ref, bases, reverse, qlen, x0, c[..i]) + OpCells(ref, bases, reverse, qlen, x, y, c[i])
  {
    var q := c[..i + 1];
    assert q[..|q| - 1] == c[..i];
    CellsLast(ref, bases, reverse, qlen, x0, q);
  }

  /** The i-th iteration of the CIGAR loop, stated against the cells of the
      first i and the first i + 1 operations. */
  method StepCigar(dist: array<int>, ghost d0: seq<int>, ref: string, bases: seq<Nibble>, reverse: bool,
                   x0: nat, c: seq<CigarOp>, i: nat, x: nat, y: nat)
    returns (x': nat, y': nat, stopped: bool)
    requires i < |c| && x0 + RefLen(c) < |ref|
    requires QueryLen(c) <= |bases| && 25 * QueryLen(c) <= dist.Length
    requires x0 + RefLen(c[..i]) <= |ref| && QueryLen(c[..i]) <= QueryLen(c)
    requires x == x0 + RefLen(c[..i]) && y == QueryLen(c[..i])
    requires dist[..] == BumpCells(d0, Cells(ref, bases, reverse, QueryLen(c), x0, c[..i]))
    modifies dist
    ensures !stopped
    ensures x0 + RefLen(c[..i + 1]) <= |ref| && QueryLen(c[..i + 1]) <= QueryLen(c)
    ensures x' == x0 + RefLen(c[..i + 1]) && y' == QueryLen(c[..i + 1])
    ensures dist[..] == BumpCells(d0, Cells(ref, bases, reverse, QueryLen(c), x0, c[..i + 1]))
  {
    PrefixLens(c, i + 1);
    PrefixStep(c, i);
    CellsPrefix(ref, bases, reverse, QueryLen(c), x0, c, i, x, y);
    x', y', stopped := WalkOp(dist, d0, Cells(ref, bases, reverse, QueryLen(c), x0, c[..i]),
      Cells(ref, bases, reverse, QueryLen(c), x0, c[..i + 1]), ref, bases, reverse, QueryLen(c), c[i], x, y);
  }

  /** The CIGAR loop of _nucleotide_alignment_frequencies for an alignment
      starting at reference index x0 and ending before the end of the
      reference: it counts exactly the cells of the specification. */
  method WalkCigar(dist: array<int>, ref: string, bases: seq<Nibble>, reverse: bool, c: seq<CigarOp>, x0: nat)
    requires x0 + RefLen(c) < |ref|
    requires QueryLen(c) <= |bases| && 25 * QueryLen(c) <= dist.Length
    modifies dist
    ensures dist[..] == BumpCells(old(dist[..]), Cells(ref, bases, reverse, QueryLen(c), x0, c))
  {
    var i, x, y := 0, x0, 0;
    var stopped := false;
    assert c[..0] == [];
    while i < |c| && !stopped
      invariant 0 <= i <= |c| && !stopped
      invariant x0 + RefLen(c[..i]) <= |ref| && QueryLen(c[..i]) <= QueryLen(c)
      invariant x == x0 + RefLen(c[..i]) && y == QueryLen(c[..i])
      invariant dist[..] == BumpCells(old(dist[..]), Cells(ref, bases, reverse, QueryLen(c), x0, c[..i]))
    {
      x, y, stopped := StepCigar(dist, old(dist[..]), ref, bases, reverse, x0, c, i, x, y);
      i := i + 1;
    }
    assert c[..i] == c;
  }

  /** The CIGAR walk of a record inside the window: the record's cells are
      added to the matrix it is given. */
  method WalkRecord(dist: array<int>, ref: string, h: Record, start: int)
    requires Contained(h, start, ref)
    requires QueryLen(h.cigar) <= |h.bases| && 25 * QueryLen(h.cigar) <= dist.Length
    modifies dist
    ensures dist[..] == BumpCells(old(dist[..]), RecordCells(h, start, ref))
  {
    var x0: nat := h.pos - start;
    ghost var cells := RecordCells(h, start, ref);
    assert cells == Cells(ref, h.bases, h.reverse, QueryLen(h.cigar), x0, h.cigar);
    WalkCigar(dist, ref, h.bases, h.reverse, h.cigar, x0);
    assert dist[..] == BumpCells(old(dist[..]), cells);
  }

  // ---------------------------------------------------------------------
  // One record and a run of records as a specification

  /** A uniqueness key: the "%i_%i" string of position and insert size.
      That format is injective, so keys are compared as pairs. */
  datatype Key = Key(pos: int, isize: int)

  /** What the callback updates: mm_dist, mm_dist2, frag_dist, len and the
      recorded keys pos_lst[0..count_aln). */
  datatype Profile = Profile(mm: seq<int>, mm2: seq<int>, frag: seq<int>, len: nat, keys: seq<Key>)

  predicate SameShape(a: Profile, b: Profile) {
    |a.mm| == |b.mm| && |a.mm2| == |b.mm2| && |a.frag| == |b.frag|
  }

  /** The window test: the alignment starts at or after start and its end
      (bam_calend, exclusive) lies before end = start + strlen(ref). */
  predicate Contained(h: Record, start: int, ref: string) {
    start <= h.pos && CalEnd(h) < start + |ref|
  }

  function Abs(v: int): nat {
    if v < 0 then -v else v
  }

  /** Insert sizes 1..n-1 have a bucket each (size-1); every larger size
      shares the last bucket. */
  function FragBucket(isize: nat, n: nat): (b: nat)
    requires 1 <= isize && 1 <= n
    ensures b < n
    ensures b == n - 1 <==> isize >= n
    ensures isize < n ==> b + 1 == isize
  {
    if isize < n then isize - 1 else n - 1
  }

  /** What the callback dereferences without checking, for a record inside
      the window: one base per query position, a count vector with room for
      25 entries per cycle, and a non-empty histogram for a read-1 record
      with an insert size. */
  predicate Fits(h: Record, start: int, ref: string, st: Profile) {
    Contained(h, start, ref) ==>
      QueryLen(h.cigar) <= |h.bases|
      && 25 * QueryLen(h.cigar) <= (if h.read2 then |st.mm2| else |st.mm|)
      && (h.read1 && h.isize != 0 ==> |st.frag| >= 1)
  }

  /** The cells a contained record counts. */
  function RecordCells(h: Record, start: int, ref: string): seq<Cell>
    requires Contained(h, start, ref) && QueryLen(h.cigar) <= |h.bases|
  {
    Cells(ref, h.bases, h.reverse, QueryLen(h.cigar), h.pos - start, h.cigar)
  }

  /** The effect of _nucleotide_alignment_frequencies on one record: nothing
      outside the window; inside it, the key while fewer than chunkSize are
      recorded (read-2 records never), the longest query length, the
      insert-size bucket of a read-1 record, and the cells of the record in
      mm_dist, or in mm_dist2 for a read-2 record. */
  function Step(st: Profile, h: Record, start: int, ref: string, chunkSize: int): (r: Profile)
    requires Fits(h, start, ref, st)
    ensures SameShape(r, st)
  {
    if !Contained(h, start, ref) then st
    else
      Profile(
        StepMatrix(st.mm, h, start, ref, false),
        StepMatrix(st.mm2, h, start, ref, true),
        StepHistogram(st.frag, h),
        if st.len < QueryLen(h.cigar) then QueryLen(h.cigar) else st.len,
        StepKeys(st.keys, h, chunkSize))
  }

  /** The count vector of read-2 records (second = true) or of the others
      receives the cells of a record of its kind. */
  function StepMatrix(m: seq<int>, h: Record, start: int, ref: string, second: bool): (r: seq<int>)
    requires Contained(h, start, ref) && QueryLen(h.cigar) <= |h.bases|
    ensures |r| == |m|
  {
    if h.read2 == second then BumpCells(m, RecordCells(h, start, ref)) else m
  }

  function StepHistogram(frag: seq<int>, h: Record): (r: seq<int>)
    requires h.read1 && h.isize != 0 ==> |frag| >= 1
    ensures |r| == |frag|
  {
    if h.read1 && h.isize != 0 then Bump(frag, FragBucket(Abs(h.isize), |frag|)) else frag
  }

  function StepKeys(keys: seq<Key>, h: Record, chunkSize: int): seq<Key> {
    if !h.read2 && |keys| < chunkSize then keys + [Key(h.pos, h.isize)] else keys
  }

  predicate AllFit(hits: seq<Record>, start: int, ref: string, st: Profile) {
    forall h :: h in hits ==> Fits(h, start, ref, st)
  }

  /** The records handed to the callback one after the other. */
  function Run(st: Profile, hits: seq<Record>, start: int, ref: string, chunkSize: int): (r: Profile)
    requires AllFit(hits, start, ref, st)
    ensures SameShape(r, st)
    decreases |hits|
  {
    if hits == [] then st
    else
      assert hits[|hits| - 1] in hits;
      Step(Run(st, hits[..|hits| - 1], start, ref, chunkSize), hits[|hits| - 1], start, ref, chunkSize)
  }

  // ---------------------------------------------------------------------
  // What a run computes

  /** Records outside the window touch no counter: with none inside it, the
      profile is unchanged. */
  lemma {:induction false} RunOutsideWindow(st: Profile, hits: seq<Record>, start: int, ref: string, chunkSize: int)
    requires AllFit(hits, start, ref, st)
    requires forall h :: h in hits ==> !Contained(h, start, ref)
    ensures Run(st, hits, start, ref, chunkSize) == st
    decreases |hits|
  {
    if hits != [] {
      RunOutsideWindow(st, hits[..|hits| - 1], start, ref, chunkSize);
    }
  }

  /** len is the longest query length of a record inside the window (or the
      starting value, when that is larger). */
  lemma {:induction false} RunLongest(st: Profile, hits: seq<Record>, start: int, ref: string, chunkSize: int)
    requires AllFit(hits, start, ref, st)
    ensures st.len <= Run(st, hits, start, ref, chunkSize).len
    ensures forall h :: h in hits && Contained(h, start, ref) ==>
      QueryLen(h.cigar) <= Run(st, hits, start, ref, chunkSize).len
    ensures Run(st, hits, start, ref, chunkSize).len == st.len
      || exists h :: h in hits && Contained(h, start, ref) && Run(st, hits, start, ref, chunkSize).len == QueryLen(h.cigar)
    decreases |hits|
  {
    if hits != [] {
      var p := hits[..|hits| - 1];
      RunLongest(st, p, start, ref, chunkSize);
      assert forall h :: h in hits ==> h in p || h == hits[|hits| - 1];
    }
  }

  /** The keys of the records inside the window that are not read 2. */
  function WindowKeys(hits: seq<Record>, start: int, ref: string): seq<Key> {
    if hits == [] then []
    else
      var h := hits[|hits| - 1];
      WindowKeys(hits[..|hits| - 1], start, ref)
        + (if Contained(h, start, ref) && !h.read2 then [Key(h.pos, h.isize)] else [])
  }

  /** The first n elements (none for n <= 0, all for n >= |s|). */
  function Take(s: seq<Key>, n: int): (r: seq<Key>)
    ensures |r| <= |s|
  {
    if n <= 0 then [] else if n >= |s| then s else s[..n]
  }

  /** pos_lst holds the keys of the first records, up to chunkSize of them. */
  lemma {:induction false} RunKeys(st: Profile, hits: seq<Record>, start: int, ref: string, chunkSize: int)
    requires AllFit(hits, start, ref, st)
    ensures Run(st, hits, start, ref, chunkSize).keys
         == st.keys + Take(WindowKeys(hits, start, ref), chunkSize - |st.keys|)
    decreases |hits|
  {
    if hits != [] {
      var p := hits[..|hits| - 1];
      var h := hits[|hits| - 1];
      RunKeys(st, p, start, ref, chunkSize);
      var w := WindowKeys(p, start, ref);
      var n := chunkSize - |st.keys|;
      if Contained(h, start, ref) && !h.read2 && 0 < n && |w| < n {
        assert Take(w + [Key(h.pos, h.isize)], n) == w + [Key(h.pos, h.isize)];
      } else if Contained(h, start, ref) && !h.read2 && 0 < n {
        assert Take(w + [Key(h.pos, h.isize)], n) == Take(w, n);
      }
    }
  }

  predicate HaveBases(hits: seq<Record>, start: int, ref: string) {
    forall h :: h in hits && Contained(h, start, ref) ==> QueryLen(h.cigar) <= |h.bases|
  }

  /** The cells of the records inside the window that are (second = true)
      or are not (second = false) read 2, in order. */
  function WindowCells(hits: seq<Record>, start: int, ref: string, second: bool): seq<Cell>
    requires HaveBases(hits, start, ref)
  {
    if hits == [] then []
    else
      var h := hits[|hits| - 1];
      assert h in hits;
      WindowCells(hits[..|hits| - 1], start, ref, second)
        + (if Contained(h, start, ref) && h.read2 == second then RecordCells(h, start, ref) else [])
  }

  /** The count vector of read-2 records (second = true) or of the others. */
  function Matrix(st: Profile, second: bool): seq<int> {
    if second then st.mm2 else st.mm
  }

  /** mm_dist receives the cells of every record that is not read 2 and
      mm_dist2 those of every read-2 record. */
  lemma {:induction false} RunMatrix(st: Profile, hits: seq<Record>, start: int, ref: string, chunkSize: int, second: bool)
    requires AllFit(hits, start, ref, st)
    ensures HaveBases(hits, start, ref)
    ensures Matrix(Run(st, hits, start, ref, chunkSize), second)
         == BumpCells(Matrix(st, second), WindowCells(hits, start, ref, second))
    decreases |hits|
  {
    if hits != [] {
      var p := hits[..|hits| - 1];
      var h := hits[|hits| - 1];
      assert h in hits;
      RunMatrix(st, p, start, ref, chunkSize, second);
      var before := WindowCells(p, start, ref, second);
      var all := WindowCells(hits, start, ref, second);
      if Contained(h, start, ref) && h.read2 == second {
        BumpCellsAppend(Matrix(st, second), before, RecordCells(h, start, ref), all);
      } else {
        assert all == before + [] == before;
      }
    }
  }

  /** The number of read-1 records inside the window whose insert size falls
      in bucket k of a histogram with n buckets. */
  function BucketCount(hits: seq<Record>, start: int, ref: string, n: nat, k: nat): nat {
    if hits == [] then 0
    else
      var h := hits[|hits| - 1];
      BucketCount(hits[..|hits| - 1], start, ref, n, k)
        + (if Contained(h, start, ref) && h.read1 && h.isize != 0 && n >= 1 && FragBucket(Abs(h.isize), n) == k then 1 else 0)
  }

  /** Each histogram bucket grows by the number of read-1 records whose
      insert size it covers. */
  lemma {:induction false} RunHistogram(st: Profile, hits: seq<Record>, start: int, ref: string, chunkSize: int, k: nat)
    requires AllFit(hits, start, ref, st) && k < |st.frag|
    ensures Run(st, hits, start, ref, chunkSize).frag[k] == st.frag[k] + BucketCount(hits, start, ref, |st.frag|, k)
    decreases |hits|
  {
    if hits != [] {
      RunHistogram(st, hits[..|hits| - 1], start, ref, chunkSize, k);
    }
  }

  // ---------------------------------------------------------------------
  // Distinct keys

  /** An order on keys, position first; the code sorts the key strings with
      strcmp instead, and the count below only needs equal keys to end up
      next to each other, which every sort achieves. */
  predicate KeyLe(a: Key, b: Key) {
    a.pos < b.pos || (a.pos == b.pos && a.isize <= b.isize)
  }

  predicate SortedKeys(s: seq<Key>) {
    forall i, j :: 0 <= i < j < |s| ==> KeyLe(s[i], s[j])
  }

  function InsertKey(s: seq<Key>, k: Key): (r: seq<Key>)
    requires SortedKeys(s)
    ensures SortedKeys(r)
    ensures multiset(r) == multiset(s) + multiset{k}
    ensures |r| > 0 && (r[0] == k || (|s| > 0 && r[0] == s[0]))
    decreases |s|
  {
    if s == [] then [k]
    else if KeyLe(k, s[0]) then [k] + s
    else
      var t := InsertKey(s[1..], k);
      assert s == [s[0]] + s[1..];
      assert KeyLe(s[0], t[0]);
      [s[0]] + t
  }

  /** The qsort of pos_lst. */
  function SortKeys(s: seq<Key>): (r: seq<Key>)
    ensures SortedKeys(r)
    ensures multiset(r) == multiset(s)
    decreases |s|
  {
    if s == [] then []
    else
      assert s == s[..|s| - 1] + [s[|s| - 1]];
      InsertKey(SortKeys(s[..|s| - 1]), s[|s| - 1])
  }

  function Elements(s: seq<Key>): set<Key> {
    set k | k in s
  }

  /** The number of different keys. */
  function Distinct(s: seq<Key>): nat {
    |Elements(s)|
  }

  lemma DistinctPermutation(a: seq<Key>, b: seq<Key>)
    requires multiset(a) == multiset(b)
    ensures Distinct(a) == Distinct(b)
  {
    assert Elements(a) == Elements(b) by {
      forall k ensures k in a <==> k in b {
        assert k in a <==> k in multiset(a);
        assert k in b <==> k in multiset(b);
      }
    }
  }

  /** In a sorted sequence an element occurs earlier iff it equals its
      predecessor, so each new neighbour difference is one more distinct
      key. */
  lemma DistinctStep(s: seq<Key>, i: nat)
    requires SortedKeys(s) && 0 < i < |s|
    ensures Distinct(s[..i + 1]) == Distinct(s[..i]) + (if s[i - 1] != s[i] then 1 else 0)
  {
    var t := s[..i];
    assert s[..i + 1] == t + [s[i]];
    ElementsSnoc(t, s[i]);
    if s[i - 1] != s[i] {
      NotEarlier(s, i);
    } else {
      assert t[i - 1] == s[i];
      assert Elements(t) + {s[i]} == Elements(t);
    }
  }

  lemma ElementsSnoc(t: seq<Key>, k: Key)
    ensures Elements(t + [k]) == Elements(t) + {k}
  {
  }

  /** In a sorted sequence, an element that differs from its predecessor
      does not occur before it. */
  lemma NotEarlier(s: seq<Key>, i: nat)
    requires SortedKeys(s) && 0 < i < |s| && s[i - 1] != s[i]
    ensures s[i] !in Elements(s[..i])
  {
    var t := s[..i];
    forall m | 0 <= m < i ensures t[m] != s[i] {
      assert t[m] == s[m];
      if m < i - 1 {
        assert KeyLe(s[m], s[i - 1]);
      }
      assert KeyLe(s[i - 1], s[i]);
    }
  }

  /** The distinct-key count of nucleotide_alignment_frequencies: sort, then
      count one plus the number of neighbours that differ. */
  method CountUnique(keys: seq<Key>) returns (unique: nat)
    ensures unique == Distinct(keys)
    ensures unique <= |keys|
    ensures unique == 0 <==> keys == []
  {
    unique := 0;
    if |keys| > 0 {
      var sorted := SortKeys(keys);
      unique := 1;
      assert sorted[..1] == [sorted[0]];
      assert Elements(sorted[..1]) == {sorted[0]};
      for i := 1 to |sorted|
        invariant 1 <= unique <= i
        invariant unique == Distinct(sorted[..i])
      {
        DistinctStep(sorted, i);
        if sorted[i - 1] != sorted[i] {
          unique := unique + 1;
        }
      }
      assert sorted[..|sorted|] == sorted;
      DistinctPermutation(sorted, keys);
    } else {
      assert Elements(keys) == {};
    }
  }

  // ---------------------------------------------------------------------
  // The profiler state (fetch_param) and the driver

  class Profiler {
    const mmDist: array<int>
    const mmDist2: array<int>
    const fragDist: array<int>
    const start: int
    const ref: string
    const chunkSize: int
    var len: nat
    var keys: seq<Key>

    /** The three count vectors are different R vectors. */
    predicate Separate() {
      mmDist != mmDist2 && mmDist != fragDist && mmDist2 != fragDist
    }

    function State(): Profile
      reads this, mmDist, mmDist2, fragDist
    {
      Profile(mmDist[..], mmDist2[..], fragDist[..], len, keys)
    }

    constructor (mmDist: array<int>, mmDist2: array<int>, fragDist: array<int>, start: int, ref: string, chunkSize: int)
      ensures this.mmDist == mmDist && this.mmDist2 == mmDist2 && this.fragDist == fragDist
      ensures this.start == start && this.ref == ref && this.chunkSize == chunkSize
      ensures len == 0 && keys == []
    {
      this.mmDist, this.mmDist2, this.fragDist := mmDist, mmDist2, fragDist;
      this.start, this.ref, this.chunkSize := start, ref, chunkSize;
      len, keys := 0, [];
    }

    /** _nucleotide_alignment_frequencies. */
    method AddRecord(h: Record)
      requires Separate() && Fits(h, start, ref, State())
      modifies mmDist, mmDist2, fragDist, this`len, this`keys
      ensures State() == Step(old(State()), h, start, ref, chunkSize)
    {
      if start <= h.pos && CalEnd(h) < start + |ref| {
        if !h.read2 && |keys| < chunkSize {
          keys := keys + [Key(h.pos, h.isize)];
        }
        var qlen := QueryLen(h.cigar);
        if len < qlen {
          len := qlen;
        }
        CountFragment(h);
        CountCells(h);
      }
    }

    /** The CIGAR walk into mm_dist, or into mm_dist2 for a read-2 record. */
    method CountCells(h: Record)
      requires Separate() && Contained(h, start, ref) && Fits(h, start, ref, State())
      modifies mmDist, mmDist2
      ensures mmDist[..] == StepMatrix(old(mmDist[..]), h, start, ref, false)
      ensures mmDist2[..] == StepMatrix(old(mmDist2[..]), h, start, ref, true)
    {
      if h.read2 {
        WalkRecord(mmDist2, ref, h, start);
      } else {
        WalkRecord(mmDist, ref, h, start);
      }
    }

    /** The insert-size histogram update of a record inside the window. */
    method CountFragment(h: Record)
      requires h.read1 && h.isize != 0 ==> fragDist.Length >= 1
      modifies fragDist
      ensures fragDist[..] == StepHistogram(old(fragDist[..]), h)
    {
      var isize := Abs(h.isize);
      if h.read1 && isize != 0 {
        var b := FragBucket(isize, fragDist.Length);
        fragDist[b] := fragDist[b] + 1;
      }
    }

    /** bam_fetch handing the records of the window to the callback. */
    method AddRecords(hits: seq<Record>)
      requires Separate() && AllFit(hits, start, ref, State())
      modifies mmDist, mmDist2, fragDist, this`len, this`keys
      ensures State() == Run(old(State()), hits, start, ref, chunkSize)
    {
      assert hits[..0] == [];
      for i := 0 to |hits|
        invariant AllFit(hits, start, ref, old(State()))
        invariant State() == Run(old(State()), hits[..i], start, ref, chunkSize)
      {
        assert hits[..i + 1][..i] == hits[..i];
        assert hits[i] in hits;
        AddRecord(hits[i]);
      }
      assert hits[..|hits|] == hits;
    }
  }

  /** nucleotide_alignment_frequencies after its argument checks: profile
      the records of the window starting at 1-based refStart, add the number
      of distinct recorded keys and the number of recorded keys to
      uniqueness[0] and uniqueness[1], and return the longest query length
      (0 when no record lies inside the window). */
  method NucleotideAlignmentFrequencies(hits: seq<Record>, ref: string, refStart: int,
                                        mmDist: array<int>, mmDist2: array<int>, fragDist: array<int>,
                                        uniqueness: array<int>, chunkSize: int)
    returns (maxLen: nat)
    requires mmDist != mmDist2 && mmDist != fragDist && mmDist2 != fragDist
    requires uniqueness != mmDist && uniqueness != mmDist2 && uniqueness != fragDist
    requires uniqueness.Length >= 2
    requires AllFit(hits, refStart - 1, ref, Profile(mmDist[..], mmDist2[..], fragDist[..], 0, []))
    modifies mmDist, mmDist2, fragDist, uniqueness
    ensures var r := Run(Profile(old(mmDist[..]), old(mmDist2[..]), old(fragDist[..]), 0, []), hits, refStart - 1, ref, chunkSize);
      mmDist[..] == r.mm && mmDist2[..] == r.mm2 && fragDist[..] == r.frag && maxLen == r.len
      && uniqueness[..] == old(uniqueness[..])[0 := old(uniqueness[0]) + Distinct(r.keys)][1 := old(uniqueness[1]) + |r.keys|]
  {
    var start := refStart - 1;
    var p := new Profiler(mmDist, mmDist2, fragDist, start, ref, chunkSize);
    p.AddRecords(hits);
    var unique := CountUnique(p.keys);
    uniqueness[0] := uniqueness[0] + unique;
    uniqueness[1] := uniqueness[1] + |p.keys|;
    if p.len == 0 {
      maxLen := 0;
    } else {
      maxLen := p.len;
    }
  }

  /** When no record lies inside the window nothing is recorded: the
      profile keeps length 0 and no keys. */
  lemma NoWindowRecords(st: Profile, hits: seq<Record>, start: int, ref: string, chunkSize: int)
    requires AllFit(hits, start, ref, st) && st.len == 0 && st.keys == []
    requires forall h :: h in hits ==> !Contained(h, start, ref)
    ensures Run(st, hits, start, ref, chunkSize).len == 0
    ensures Run(st, hits, start, ref, chunkSize).keys == []
  {
    RunOutsideWindow(st, hits, start, ref, chunkSize);
  }
}
