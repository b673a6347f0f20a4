/** Alignment records as the three counting engines see them: the fields of a
    fetched BAM record that the callbacks read, the CIGAR operations, and the
    coordinate arithmetic htslib provides for them (bam_calend,
    bam_cigar2qlen). */
module Bam {

  /** The outcome of a call that can abort with an error message. */
  datatype Outcome = Pass | Fail(msg: string)

  /** A value or the error message the call aborted with. */
  datatype Result<T> = Ok(value: T) | Err(msg: string)

  datatype Option<T> = None | Some(value: T)

  /** The nine CIGAR operation codes of the BAM format (M I D N S H P = X). */
  datatype OpKind = Match | Ins | Del | RefSkip | SoftClip | HardClip | Pad | SeqMatch | SeqDiff

  datatype CigarOp = CigarOp(kind: OpKind, len: nat)

  /** A 4-bit base code as stored in a BAM sequence (A=1, C=2, G=4, T=8, N=15). */
  type Nibble = x: int | 0 <= x < 16

  /** Mapping quality is an unsigned 8-bit field. */
  type Byte = x: int | 0 <= x < 256

  const BaseA: Nibble := 1
  const BaseC: Nibble := 2
  const BaseG: Nibble := 4
  const BaseT: Nibble := 8

  /** One fetched alignment: 0-based leftmost position, CIGAR, the flag bits
      the engines test (0x10 reverse, 0x40 read 1, 0x80 read 2, 0x100
      secondary), MAPQ, the 4-bit bases, the insert size and the optional
      character value of the XV allele tag. */
  datatype Record = Record(
    pos: nat,
    cigar: seq<CigarOp>,
    reverse: bool,
    read1: bool,
    read2: bool,
    secondary: bool,
    mapq: Byte,
    bases: seq<Nibble>,
    isize: int,
    xv: Option<char>)

  /** Operations that consume reference bases (M, D, N, =, X). */
  predicate ConsumesRef(k: OpKind) {
    k == Match || k == Del || k == RefSkip || k == SeqMatch || k == SeqDiff
  }

  /** Operations that consume read bases (M, I, S, =, X). */
  predicate ConsumesQuery(k: OpKind) {
    k == Match || k == Ins || k == SoftClip || k == SeqMatch || k == SeqDiff
  }

  /** Number of reference bases the CIGAR spans (htslib bam_cigar2rlen). */
  function RefLen(c: seq<CigarOp>): nat
  {
    if c == [] then 0
    else RefLen(c[..|c| - 1]) + (if ConsumesRef(c[|c| - 1].kind) then c[|c| - 1].len else 0)
  }

  /** Number of read bases the CIGAR spans (htslib bam_cigar2qlen). */
  function QueryLen(c: seq<CigarOp>): nat
  {
    if c == [] then 0
    else QueryLen(c[..|c| - 1]) + (if ConsumesQuery(c[|c| - 1].kind) then c[|c| - 1].len else 0)
  }

  /** 0-based exclusive end of the alignment on the reference (bam_calend). */
  function CalEnd(r: Record): (e: int)
    ensures e >= r.pos
  {
    r.pos + RefLen(r.cigar)
  }

  /** Both lengths grow with the prefix of the CIGAR that is counted. */
  lemma {:induction false} PrefixLens(c: seq<CigarOp>, i: nat)
    requires i <= |c|
    ensures RefLen(c[..i]) <= RefLen(c)
    ensures QueryLen(c[..i]) <= QueryLen(c)
    decreases |c| - i
  {
    if i < |c| {
      PrefixLens(c, i + 1);
      assert c[..i + 1][..i] == c[..i];
    } else {
      assert c[..i] == c;
    }
  }

  /** Extending a prefix by one operation adds that operation's lengths. */
  lemma PrefixStep(c: seq<CigarOp>, i: nat)
    requires i < |c|
    ensures RefLen(c[..i + 1]) == RefLen(c[..i]) + (if ConsumesRef(c[i].kind) then c[i].len else 0)
    ensures QueryLen(c[..i + 1]) == QueryLen(c[..i]) + (if ConsumesQuery(c[i].kind) then c[i].len else 0)
  {
    assert c[..i + 1][..i] == c[..i];
  }
}
