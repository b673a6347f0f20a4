/** Splice-junction counting (count_junctions.cpp): every reference skip (N)
    of an alignment that passes the quality and secondary filters is counted
    under the key "chromosome:first_intronic_base:last_intronic_base:strand",
    in one map, or in one of three maps chosen by the XV allele tag. */
module Junctions {
  import opened Bam
  import opened Text

  /** The three junction maps: Unknown is junctionsU (also the only map used
      without allele mode), Reference is junctionsR, Alternative junctionsA. */
  datatype Allele = Unknown | Reference | Alternative

  type Counts = map<string, nat>

  function StrandChar(reverse: bool): char {
    if reverse then '-' else '+'
  }

  /** The key printed with "%s:%i:%i:%c". */
  function JunctionId(tname: string, first: nat, last: nat, strand: char): string {
    tname + ":" + NatToString(first) + ":" + NatToString(last) + ":" + [strand]
  }

  // ---------------------------------------------------------------------
  // The CIGAR walk: reference coordinate x, read coordinate y

  datatype Coords = Coords(x: nat, y: nat)

  /** One iteration of the walk, branch by branch: M/=/X move both
      coordinates, N and D only x, I and S only y, H and P neither. */
  function Advance(p: Coords, op: CigarOp): Coords {
    match op.kind
    case Match | SeqMatch | SeqDiff => Coords(p.x + op.len, p.y + op.len)
    case RefSkip | Del => Coords(p.x + op.len, p.y)
    case Ins | SoftClip => Coords(p.x, p.y + op.len)
    case HardClip | Pad => p
  }

  function Walk(from: Coords, c: seq<CigarOp>): Coords {
    if |c| == 0 then from else Advance(Walk(from, c[..|c| - 1]), c[|c| - 1])
  }

  /** After the walk x has moved by the reference length of the CIGAR and y
      by its query length, as htslib computes them. */
  lemma {:induction false} WalkAdvances(from: Coords, c: seq<CigarOp>)
    ensures Walk(from, c) == Coords(from.x + RefLen(c), from.y + QueryLen(c))
  {
    if |c| > 0 {
      WalkAdvances(from, c[..|c| - 1]);
    }
  }

  /** The keys one operation emits when the walk is at reference coordinate x. */
  function OpIds(tname: string, x: nat, reverse: bool, op: CigarOp): seq<string> {
    if op.kind == RefSkip then [JunctionId(tname, x + 1, x + op.len, StrandChar(reverse))] else []
  }

  /** The keys of all N operations of a CIGAR, in walk order. */
  function SpliceIds(tname: string, pos: nat, reverse: bool, c: seq<CigarOp>): seq<string> {
    if |c| == 0 then []
    else SpliceIds(tname, pos, reverse, c[..|c| - 1])
         + OpIds(tname, Walk(Coords(pos, 0), c[..|c| - 1]).x, reverse, c[|c| - 1])
  }

  /** Walking one more operation of the CIGAR. */
  lemma SpliceStep(tname: string, pos: nat, reverse: bool, c: seq<CigarOp>, i: nat)
    requires i < |c|
    ensures Walk(Coords(pos, 0), c[..i + 1]) == Advance(Walk(Coords(pos, 0), c[..i]), c[i])
    ensures SpliceIds(tname, pos, reverse, c[..i + 1])
            == SpliceIds(tname, pos, reverse, c[..i]) + OpIds(tname, Walk(Coords(pos, 0), c[..i]).x, reverse, c[i])
  {
    assert c[..i + 1][..i] == c[..i];
  }

  function NumSkips(c: seq<CigarOp>): nat {
    if |c| == 0 then 0 else NumSkips(c[..|c| - 1]) + (if c[|c| - 1].kind == RefSkip then 1 else 0)
  }

  /** Keys of one target never collide: the key of a junction determines
      its first and last intron base and its strand, so two different
      junctions of one chromosome are never merged into one count. */
  lemma JunctionIdInjective(tname: string, f1: nat, l1: nat, s1: char, f2: nat, l2: nat, s2: char)
    requires JunctionId(tname, f1, l1, s1) == JunctionId(tname, f2, l2, s2)
    ensures f1 == f2 && l1 == l2 && s1 == s2
  {
    var a1, b1, a2, b2 := NatToString(f1), NatToString(l1), NatToString(f2), NatToString(l2);
    var t1, t2 := b1 + [':'] + [s1], b2 + [':'] + [s2];
    var r1, r2 := a1 + [':'] + t1, a2 + [':'] + t2;
    assert JunctionId(tname, f1, l1, s1) == tname + [':'] + r1;
    assert JunctionId(tname, f2, l2, s2) == tname + [':'] + r2;
    assert r1 == (tname + [':'] + r1)[|tname| + 1..] == r2;
    NoColon(f1);
    NoColon(l1);
    NoColon(f2);
    NoColon(l2);
    SplitAtColon(a1, t1, a2, t2);
    SplitAtColon(b1, [s1], b2, [s2]);
    NatToStringInjective(f1, f2);
    NatToStringInjective(l1, l2);
  }

  /** Operation i of c, reached at reference coordinate pos + (reference
      length before it), emits key id. */
  predicate EmitsAt(tname: string, pos: nat, reverse: bool, c: seq<CigarOp>, i: int, id: string) {
    0 <= i < |c| && id in OpIds(tname, pos + RefLen(c[..i]), reverse, c[i])
  }

  /** One unfolding of SpliceIds, with the walk position as a length. */
  lemma SpliceIdsLast(tname: string, pos: nat, reverse: bool, c: seq<CigarOp>)
    requires |c| > 0
    ensures SpliceIds(tname, pos, reverse, c)
         == SpliceIds(tname, pos, reverse, c[..|c| - 1]) + OpIds(tname, pos + RefLen(c[..|c| - 1]), reverse, c[|c| - 1])
  {
    var p := c[..|c| - 1];
    WalkAdvances(Coords(pos, 0), p);
    var x := Walk(Coords(pos, 0), p).x;
    assert SpliceIds(tname, pos, reverse, c) == SpliceIds(tname, pos, reverse, p) + OpIds(tname, x, reverse, c[|c| - 1]);
    assert x == pos + RefLen(p);
  }

  /** Dropping the last operation keeps what the earlier ones emit. */
  lemma EmitsAtPrefix(tname: string, pos: nat, reverse: bool, c: seq<CigarOp>, i: int, id: string)
    requires 0 <= i < |c| - 1
    ensures EmitsAt(tname, pos, reverse, c[..|c| - 1], i, id) <==> EmitsAt(tname, pos, reverse, c, i, id)
  {
    assert c[..|c| - 1][..i] == c[..i];
  }

  /** There is one key per N operation. */
  lemma {:induction false} SpliceIdsCount(tname: string, pos: nat, reverse: bool, c: seq<CigarOp>)
    ensures |SpliceIds(tname, pos, reverse, c)| == NumSkips(c)
  {
    if |c| > 0 {
      SpliceIdsCount(tname, pos, reverse, c[..|c| - 1]);
      SpliceIdsLast(tname, pos, reverse, c);
    }
  }

  /** The walk emits key id iff some N operation emits it. */
  lemma {:induction false} SpliceIdsHas(tname: string, pos: nat, reverse: bool, c: seq<CigarOp>, id: string)
    ensures id in SpliceIds(tname, pos, reverse, c) <==> exists i :: EmitsAt(tname, pos, reverse, c, i, id)
  {
    if |c| > 0 {
      var n := |c| - 1;
      var p := c[..n];
      var last := OpIds(tname, pos + RefLen(p), reverse, c[n]);
      SpliceIdsHas(tname, pos, reverse, p, id);
      SpliceIdsLast(tname, pos, reverse, c);
      assert id in SpliceIds(tname, pos, reverse, c) <==> id in SpliceIds(tname, pos, reverse, p) || id in last;
      if id in SpliceIds(tname, pos, reverse, p) {
        var i :| EmitsAt(tname, pos, reverse, p, i, id);
        EmitsAtPrefix(tname, pos, reverse, c, i, id);
      } else if id in last {
        assert EmitsAt(tname, pos, reverse, c, n, id);
      } else {
        forall i | 0 <= i < |c| ensures !EmitsAt(tname, pos, reverse, c, i, id) {
          if i < n {
            EmitsAtPrefix(tname, pos, reverse, c, i, id);
          } else {
            assert c[..i] == p;
          }
        }
      }
    }
  }

  /** A key is emitted exactly for an N operation: D, I, S, M, =, X, H and
      P emit nothing. */
  lemma SpliceIdsSpec(tname: string, pos: nat, reverse: bool, c: seq<CigarOp>)
    ensures forall id :: id in SpliceIds(tname, pos, reverse, c) <==> exists i :: EmitsAt(tname, pos, reverse, c, i, id)
  {
    forall id ensures id in SpliceIds(tname, pos, reverse, c) <==> exists i :: EmitsAt(tname, pos, reverse, c, i, id) {
      SpliceIdsHas(tname, pos, reverse, c, id);
    }
  }

  /** Scenario: a forward alignment at 0-based position 100 with CIGAR 5M10N5M
      on chr1 yields the single key chr1:106:115:+. */
  lemma ScenarioSingleJunction()
    ensures SpliceIds("chr1", 100, false, [CigarOp(Match, 5), CigarOp(RefSkip, 10), CigarOp(Match, 5)])
            == ["chr1:106:115:+"]
  {
    var c := [CigarOp(Match, 5), CigarOp(RefSkip, 10), CigarOp(Match, 5)];
    assert c[..0] == [];
    SpliceStep("chr1", 100, false, c, 0);
    SpliceStep("chr1", 100, false, c, 1);
    SpliceStep("chr1", 100, false, c, 2);
    assert c[..3] == c;
    assert Walk(Coords(100, 0), c[..1]) == Coords(105, 5);
    ScenarioKey();
  }

  lemma ScenarioKey()
    ensures JunctionId("chr1", 106, 115, '+') == "chr1:106:115:+"
  {
    assert NatToString(1) == "1";
    assert NatToString(10) == "10";
    assert NatToString(11) == "11";
    assert NatToString(106) == "106";
    assert NatToString(115) == "115";
  }

  // ---------------------------------------------------------------------
  // Counting keys into a map

  function Count(m: Counts, k: string): nat {
    if k in m then m[k] else 0
  }

  /** One find / insert / ++ on a junction map. */
  function Bump(m: Counts, k: string): Counts {
    if k in m then m[k := m[k] + 1] else m[k := 1]
  }

  /** An absent key is inserted with count 1, a present key gains exactly 1,
      no other key changes. */
  lemma BumpCounts(m: Counts, k: string)
    ensures Bump(m, k).Keys == m.Keys + {k}
    ensures Count(Bump(m, k), k) == Count(m, k) + 1
    ensures forall j :: j != k ==> Count(Bump(m, k), j) == Count(m, j)
  {
  }

  function BumpAll(m: Counts, ks: seq<string>): Counts {
    if |ks| == 0 then m else Bump(BumpAll(m, ks[..|ks| - 1]), ks[|ks| - 1])
  }

  /** Counting a list of keys adds to every key exactly its number of
      occurrences in the list, and adds exactly the listed keys. */
  lemma {:induction false} BumpAllCounts(m: Counts, ks: seq<string>)
    ensures forall k :: k in BumpAll(m, ks) <==> k in m || k in ks
    ensures forall k :: Count(BumpAll(m, ks), k) == Count(m, k) + multiset(ks)[k]
  {
    if |ks| > 0 {
      var p := ks[..|ks| - 1];
      BumpAllCounts(m, p);
      BumpCounts(BumpAll(m, p), ks[|ks| - 1]);
      assert ks == p + [ks[|ks| - 1]];
    }
  }

  /** The final map depends only on which keys were counted how often, not on
      the order the records arrived in. */
  lemma BumpAllOrderInvariant(m: Counts, ks1: seq<string>, ks2: seq<string>)
    requires multiset(ks1) == multiset(ks2)
    ensures BumpAll(m, ks1) == BumpAll(m, ks2)
  {
    BumpAllCounts(m, ks1);
    BumpAllCounts(m, ks2);
    var a, b := BumpAll(m, ks1), BumpAll(m, ks2);
    forall k ensures k in ks1 <==> k in ks2 {
      assert k in ks1 <==> k in multiset(ks1);
      assert k in ks2 <==> k in multiset(ks2);
    }
    assert a.Keys == b.Keys;
    forall k | k in a ensures a[k] == b[k] {
      assert Count(a, k) == Count(b, k);
    }
  }

  lemma BumpAllSnoc(m: Counts, ks: seq<string>, k: string)
    ensures BumpAll(m, ks + [k]) == Bump(BumpAll(m, ks), k)
  {
    assert (ks + [k])[..|ks|] == ks;
  }

  lemma {:induction false} BumpAllAppend(m: Counts, a: seq<string>, b: seq<string>)
    ensures BumpAll(m, a + b) == BumpAll(BumpAll(m, a), b)
  {
    if |b| > 0 {
      var p := b[..|b| - 1];
      BumpAllAppend(m, a, p);
      assert (a + b)[..|a + b| - 1] == a + p;
    } else {
      assert a + b == a;
    }
  }

  // ---------------------------------------------------------------------
  // Filters and allele routing

  /** The record is counted: MAPQ in [mapqMin, mapqMax] and not a secondary
      alignment that is to be skipped. */
  predicate Passes(hit: Record, mapqMin: Byte, mapqMax: Byte, skipSecondary: bool) {
    mapqMin <= hit.mapq <= mapqMax && !(hit.secondary && skipSecondary)
  }

  /** The map a counted record goes to; None when allele mode needs an XV tag
      that is missing or not one of U, R, A. */
  function Route(allelic: bool, xv: Option<char>): Option<Allele> {
    if !allelic then Some(Unknown)
    else match xv
      case None => None
      case Some(c) =>
        if c == 'U' then Some(Unknown)
        else if c == 'R' then Some(Reference)
        else if c == 'A' then Some(Alternative)
        else None
  }

  function RouteError(xv: Option<char>): string {
    if xv.None? then "XV tag missing but needed for allele-specific counting"
    else "'" + [xv.value] + "' is not a valid XV tag value; should be one of 'U','R' or 'A'"
  }

  /** The state _addJunction works on: the three maps, the current target
      name and the filter settings. */
  class JunctionCounter {
    var junctionsU: Counts
    var junctionsR: Counts
    var junctionsA: Counts
    var tname: string
    const allelic: bool
    const skipSecondary: bool
    const mapqMin: Byte
    const mapqMax: Byte

    constructor (allelic: bool, skipSecondary: bool, mapqMin: Byte, mapqMax: Byte)
      ensures this.allelic == allelic && this.skipSecondary == skipSecondary
      ensures this.mapqMin == mapqMin && this.mapqMax == mapqMax
      ensures junctionsU == map[] && junctionsR == map[] && junctionsA == map[]
    {
      this.allelic := allelic;
      this.skipSecondary := skipSecondary;
      this.mapqMin := mapqMin;
      this.mapqMax := mapqMax;
      junctionsU, junctionsR, junctionsA := map[], map[], map[];
      tname := "";
    }

    function Junctions(a: Allele): Counts
      reads this
    {
      match a
      case Unknown => junctionsU
      case Reference => junctionsR
      case Alternative => junctionsA
    }

    /** Increment one key in the map selected for the record. */
    method CountKey(a: Allele, id: string)
      modifies this`junctionsU, this`junctionsR, this`junctionsA
      ensures Junctions(a) == Bump(old(Junctions(a)), id)
      ensures forall b :: b != a ==> Junctions(b) == old(Junctions(b))
    {
      match a
      case Unknown => junctionsU := Bump(junctionsU, id);
      case Reference => junctionsR := Bump(junctionsR, id);
      case Alternative => junctionsA := Bump(junctionsA, id);
    }

    /** The body of the CIGAR loop for one operation of length l at reference
        coordinate x and read coordinate y. */
    method WalkOp(a: Allele, x: nat, y: nat, reverse: bool, op: CigarOp) returns (x': nat, y': nat)
      modifies this`junctionsU, this`junctionsR, this`junctionsA
      ensures Coords(x', y') == Advance(Coords(x, y), op)
      ensures Junctions(a) == BumpAll(old(Junctions(a)), OpIds(tname, x, reverse, op))
      ensures forall b :: b != a ==> Junctions(b) == old(Junctions(b))
    {
      var l := op.len;
      x', y' := x, y;
      if op.kind == Match || op.kind == SeqMatch || op.kind == SeqDiff {
        x', y' := x + l, y + l;
      } else if op.kind == RefSkip {
        var id := JunctionId(tname, x + 1, x + l, StrandChar(reverse));
        CountKey(a, id);
        assert [id][..0] == [];
        x' := x + l;
      } else if op.kind == Del {
        x' := x + l;
      } else if op.kind == Ins || op.kind == SoftClip {
        y' := y + l;
      }
    }

    /** WalkOp on operation i of c, continuing the walk and the counting
        of the operations before it. */
    method WalkStep(a: Allele, ghost m0: Counts, ghost name: string, pos: nat, reverse: bool, c: seq<CigarOp>, i: nat, x: nat, y: nat)
      returns (x': nat, y': nat)
      requires name == tname
      requires i < |c|
      requires Coords(x, y) == Walk(Coords(pos, 0), c[..i])
      requires Junctions(a) == BumpAll(m0, SpliceIds(name, pos, reverse, c[..i]))
      modifies this`junctionsU, this`junctionsR, this`junctionsA
      ensures Coords(x', y') == Walk(Coords(pos, 0), c[..i + 1])
      ensures Junctions(a) == BumpAll(m0, SpliceIds(name, pos, reverse, c[..i + 1]))
      ensures forall b :: b != a ==> Junctions(b) == old(Junctions(b))
    {
      ghost var done := SpliceIds(name, pos, reverse, c[..i]);
      ghost var ids := OpIds(name, x, reverse, c[i]);
      SpliceStep(name, pos, reverse, c, i);
      assert SpliceIds(name, pos, reverse, c[..i + 1]) == done + ids;
      x', y' := WalkOp(a, x, y, reverse, c[i]);
      BumpAllAppend(m0, done, ids);
    }

    /** The fetch callback: filter, pick the map, walk the CIGAR and count
        one key per N operation. */
    method AddJunction(hit: Record) returns (r: Outcome)
      modifies this`junctionsU, this`junctionsR, this`junctionsA
      ensures r.Fail? <==> Passes(hit, mapqMin, mapqMax, skipSecondary) && Route(allelic, hit.xv).None?
      ensures r.Fail? ==> r.msg == RouteError(hit.xv)
      ensures forall a ::
        Junctions(a) == BumpAll(old(Junctions(a)), HitIds(tname, hit, allelic, skipSecondary, mapqMin, mapqMax, a))
    {
      if hit.mapq < mapqMin || hit.mapq > mapqMax {
        return Pass;
      }
      if hit.secondary && skipSecondary {
        return Pass;
      }
      var route := Route(allelic, hit.xv);
      if route.None? {
        return Fail(RouteError(hit.xv));
      }
      var a := route.value;
      WalkHit(a, hit);
      forall b ensures Junctions(b) == BumpAll(old(Junctions(b)), HitIds(tname, hit, allelic, skipSecondary, mapqMin, mapqMax, b))
      {
        if b != a {
          assert HitIds(tname, hit, allelic, skipSecondary, mapqMin, mapqMax, b) == [];
        }
      }
      return Pass;
    }

    /** The CIGAR walk of one record that passed the filters, counting its
        splice keys in map a and leaving the other maps alone. */
    method WalkHit(a: Allele, hit: Record)
      modifies this`junctionsU, this`junctionsR, this`junctionsA
      ensures Junctions(a) == BumpAll(old(Junctions(a)), SpliceIds(tname, hit.pos, hit.reverse, hit.cigar))
      ensures forall b :: b != a ==> Junctions(b) == old(Junctions(b))
    {
      ghost var m0 := Junctions(a);
      ghost var name := tname;
      var c := hit.cigar;
      var x: nat := hit.pos;
      var y: nat := 0;
      var i := 0;
      while i < |c|
        invariant 0 <= i <= |c|
        invariant Coords(x, y) == Walk(Coords(hit.pos, 0), c[..i])
        invariant Junctions(a) == BumpAll(m0, SpliceIds(name, hit.pos, hit.reverse, c[..i]))
        invariant forall b :: b != a ==> Junctions(b) == old(Junctions(b))
      {
        x, y := WalkStep(a, m0, name, hit.pos, hit.reverse, c, i, x, y);
        i := i + 1;
      }
      assert c[..|c|] == c;
    }

    /** One iteration of the region loop: set the target name and run the
        callback over every record the fetch yields, stopping at the first
        error. */
    method FetchRegion(g: Region) returns (r: Outcome)
      modifies this
      ensures tname == g.tname
      ensures r.Pass? <==> HitsRoutable(g.hits, allelic, skipSecondary, mapqMin, mapqMax)
      ensures r.Pass? ==> forall a ::
        Junctions(a) == BumpAll(old(Junctions(a)), RoutedIds(g.tname, g.hits, allelic, skipSecondary, mapqMin, mapqMax, a))
    {
      tname := g.tname;
      var k := 0;
      while k < |g.hits|
        invariant 0 <= k <= |g.hits|
        invariant tname == g.tname
        invariant HitsRoutable(g.hits[..k], allelic, skipSecondary, mapqMin, mapqMax)
        invariant forall a ::
          Junctions(a) == BumpAll(old(Junctions(a)), RoutedIds(g.tname, g.hits[..k], allelic, skipSecondary, mapqMin, mapqMax, a))
      {
        var h := g.hits[k];
        var o := AddJunction(h);
        if o.Fail? {
          assert g.hits[k] == h;
          return o;
        }
        HitsRoutableStep(g.hits, allelic, skipSecondary, mapqMin, mapqMax, k);
        forall a ensures Junctions(a) ==
          BumpAll(old(Junctions(a)), RoutedIds(g.tname, g.hits[..k + 1], allelic, skipSecondary, mapqMin, mapqMax, a))
        {
          RoutedBump(old(Junctions(a)), g.tname, g.hits, allelic, skipSecondary, mapqMin, mapqMax, a, k);
        }
        k := k + 1;
      }
      assert g.hits[..|g.hits|] == g.hits;
      return Pass;
    }

    /** The loop over the query regions, each fetched in turn. */
    method FetchAll(regions: seq<Region>) returns (r: Outcome)
      modifies this
      ensures r.Pass? <==> Routable(regions, allelic, skipSecondary, mapqMin, mapqMax)
      ensures r.Pass? ==> forall a ::
        Junctions(a) == BumpAll(old(Junctions(a)), AllIds(regions, allelic, skipSecondary, mapqMin, mapqMax, a))
    {
      var i := 0;
      while i < |regions|
        invariant 0 <= i <= |regions|
        invariant Routable(regions[..i], allelic, skipSecondary, mapqMin, mapqMax)
        invariant forall a ::
          Junctions(a) == BumpAll(old(Junctions(a)), AllIds(regions[..i], allelic, skipSecondary, mapqMin, mapqMax, a))
      {
        var o := FetchRegion(regions[i]);
        if o.Fail? {
          return o;
        }
        RoutableStep(regions, allelic, skipSecondary, mapqMin, mapqMax, i);
        forall a ensures Junctions(a) ==
          BumpAll(old(Junctions(a)), AllIds(regions[..i + 1], allelic, skipSecondary, mapqMin, mapqMax, a))
        {
          AllBump(old(Junctions(a)), regions, allelic, skipSecondary, mapqMin, mapqMax, a, i);
        }
        i := i + 1;
      }
      assert regions[..|regions|] == regions;
      return Pass;
    }
  }

  // ---------------------------------------------------------------------
  // count_junctions: all regions, then the result table

  /** One query region: its target name and the records the fetch yields. */
  datatype Region = Region(tname: string, hits: seq<Record>)

  /** The result: a named count vector, or in allele mode the columns id, R, U, A. */
  datatype JunctionTable =
    | Plain(ids: seq<string>, counts: seq<nat>)
    | Allelic(ids: seq<string>, countR: seq<nat>, countU: seq<nat>, countA: seq<nat>)

  /** The keys one record contributes to map a: its splice keys when it
      passes the filters and its tag selects a, none otherwise. */
  function HitIds(tname: string, h: Record, allelic: bool, skipSecondary: bool,
                  mapqMin: Byte, mapqMax: Byte, a: Allele): seq<string>
  {
    if Passes(h, mapqMin, mapqMax, skipSecondary) && Route(allelic, h.xv) == Some(a)
    then SpliceIds(tname, h.pos, h.reverse, h.cigar) else []
  }

  /** The keys a list of records contributes to map a. */
  function RoutedIds(tname: string, hits: seq<Record>, allelic: bool, skipSecondary: bool,
                     mapqMin: Byte, mapqMax: Byte, a: Allele): seq<string>
  {
    if |hits| == 0 then []
    else
      RoutedIds(tname, hits[..|hits| - 1], allelic, skipSecondary, mapqMin, mapqMax, a)
      + HitIds(tname, hits[|hits| - 1], allelic, skipSecondary, mapqMin, mapqMax, a)
  }

  lemma RoutedBump(m: Counts, tname: string, hits: seq<Record>, allelic: bool, skipSecondary: bool,
                   mapqMin: Byte, mapqMax: Byte, a: Allele, k: nat)
    requires k < |hits|
    ensures BumpAll(m, RoutedIds(tname, hits[..k + 1], allelic, skipSecondary, mapqMin, mapqMax, a))
      == BumpAll(BumpAll(m, RoutedIds(tname, hits[..k], allelic, skipSecondary, mapqMin, mapqMax, a)),
                 HitIds(tname, hits[k], allelic, skipSecondary, mapqMin, mapqMax, a))
  {
    assert hits[..k + 1][..k] == hits[..k];
    BumpAllAppend(m, RoutedIds(tname, hits[..k], allelic, skipSecondary, mapqMin, mapqMax, a),
                  HitIds(tname, hits[k], allelic, skipSecondary, mapqMin, mapqMax, a));
  }

  function AllIds(regions: seq<Region>, allelic: bool, skipSecondary: bool,
                  mapqMin: Byte, mapqMax: Byte, a: Allele): seq<string>
  {
    if |regions| == 0 then []
    else
      var g := regions[|regions| - 1];
      AllIds(regions[..|regions| - 1], allelic, skipSecondary, mapqMin, mapqMax, a)
      + RoutedIds(g.tname, g.hits, allelic, skipSecondary, mapqMin, mapqMax, a)
  }

  lemma AllBump(m: Counts, regions: seq<Region>, allelic: bool, skipSecondary: bool,
                mapqMin: Byte, mapqMax: Byte, a: Allele, i: nat)
    requires i < |regions|
    ensures BumpAll(m, AllIds(regions[..i + 1], allelic, skipSecondary, mapqMin, mapqMax, a))
      == BumpAll(BumpAll(m, AllIds(regions[..i], allelic, skipSecondary, mapqMin, mapqMax, a)),
                 RoutedIds(regions[i].tname, regions[i].hits, allelic, skipSecondary, mapqMin, mapqMax, a))
  {
    assert regions[..i + 1][..i] == regions[..i];
    BumpAllAppend(m, AllIds(regions[..i], allelic, skipSecondary, mapqMin, mapqMax, a),
                  RoutedIds(regions[i].tname, regions[i].hits, allelic, skipSecondary, mapqMin, mapqMax, a));
  }

  /** Every record of the list that passes the filters carries a valid tag. */
  ghost predicate HitsRoutable(hits: seq<Record>, allelic: bool, skipSecondary: bool, mapqMin: Byte, mapqMax: Byte) {
    forall k :: 0 <= k < |hits| && Passes(hits[k], mapqMin, mapqMax, skipSecondary) ==> Route(allelic, hits[k].xv).Some?
  }

  lemma HitsRoutableStep(hits: seq<Record>, allelic: bool, skipSecondary: bool, mapqMin: Byte, mapqMax: Byte, k: nat)
    requires k < |hits|
    ensures HitsRoutable(hits[..k + 1], allelic, skipSecondary, mapqMin, mapqMax)
        <==> HitsRoutable(hits[..k], allelic, skipSecondary, mapqMin, mapqMax)
             && (Passes(hits[k], mapqMin, mapqMax, skipSecondary) ==> Route(allelic, hits[k].xv).Some?)
  {
    assert hits[..k + 1][k] == hits[k];
    assert forall j :: 0 <= j < k ==> hits[..k + 1][j] == hits[..k][j];
  }

  /** Every counted record can be routed: no XV error occurs. */
  ghost predicate Routable(regions: seq<Region>, allelic: bool, skipSecondary: bool, mapqMin: Byte, mapqMax: Byte) {
    forall i :: 0 <= i < |regions| ==> HitsRoutable(regions[i].hits, allelic, skipSecondary, mapqMin, mapqMax)
  }

  lemma RoutableStep(regions: seq<Region>, allelic: bool, skipSecondary: bool, mapqMin: Byte, mapqMax: Byte, i: nat)
    requires i < |regions|
    ensures Routable(regions[..i + 1], allelic, skipSecondary, mapqMin, mapqMax)
        <==> Routable(regions[..i], allelic, skipSecondary, mapqMin, mapqMax)
             && HitsRoutable(regions[i].hits, allelic, skipSecondary, mapqMin, mapqMax)
  {
    assert regions[..i + 1][i] == regions[i];
    assert forall j :: 0 <= j < i ==> regions[..i + 1][j] == regions[..i][j];
  }

  /** The table lists each key of the counted keys once, in std::string
      order, with its number of occurrences. */
  ghost predicate PlainTable(t: JunctionTable, ks: seq<string>) {
    && t.Plain? && Sorted(t.ids) && |t.counts| == |t.ids|
    && (forall k :: k in t.ids <==> k in ks)
    && (forall i :: 0 <= i < |t.ids| ==> t.counts[i] == multiset(ks)[t.ids[i]])
  }

  /** The allele table lists the union of the three key lists once, in
      order, each column holding that map's count (0 where it lacks the key). */
  ghost predicate AllelicTable(t: JunctionTable, ksU: seq<string>, ksR: seq<string>, ksA: seq<string>) {
    && t.Allelic? && Sorted(t.ids)
    && |t.countR| == |t.ids| && |t.countU| == |t.ids| && |t.countA| == |t.ids|
    && (forall k :: k in t.ids <==> k in ksU || k in ksR || k in ksA)
    && (forall i :: 0 <= i < |t.ids| ==>
          t.countR[i] == multiset(ksR)[t.ids[i]] &&
          t.countU[i] == multiset(ksU)[t.ids[i]] &&
          t.countA[i] == multiset(ksA)[t.ids[i]])
  }

  /** A map built by counting a key list from empty holds exactly the keys
      of the list, each with its number of occurrences. */
  lemma CountedKeys(m: Counts, ks: seq<string>)
    requires m == BumpAll(map[], ks)
    ensures forall x :: x in m <==> x in ks
    ensures forall x :: Count(m, x) == multiset(ks)[x]
  {
    BumpAllCounts(map[], ks);
  }

  /** std::set<string>::insert for every key of a map. */
  method InsertKeys(unique: seq<string>, keys: set<string>) returns (r: seq<string>)
    requires Sorted(unique)
    ensures Sorted(r)
    ensures forall x :: x in r <==> x in unique || x in keys
  {
    r := unique;
    var rest := keys;
    while rest != {}
      invariant rest <= keys
      invariant Sorted(r)
      invariant forall x :: x in r <==> x in unique || x in keys - rest
      decreases |rest|
    {
      var k :| k in rest;
      r := Insert(r, k);
      rest := rest - {k};
    }
  }

  /** The allelic result: the union of the three maps' keys, each once and in
      order, with 0 for a map lacking the key. */
  method AssembleAllelic(mU: Counts, mR: Counts, mA: Counts,
                         ghost ksU: seq<string>, ghost ksR: seq<string>, ghost ksA: seq<string>) returns (t: JunctionTable)
    requires mU == BumpAll(map[], ksU) && mR == BumpAll(map[], ksR) && mA == BumpAll(map[], ksA)
    ensures AllelicTable(t, ksU, ksR, ksA)
  {
    var unique := InsertKeys([], mU.Keys);
    unique := InsertKeys(unique, mR.Keys);
    unique := InsertKeys(unique, mA.Keys);
    var cR, cU, cA := [], [], [];
    var i := 0;
    while i < |unique|
      invariant 0 <= i <= |unique|
      invariant |cR| == i && |cU| == i && |cA| == i
      invariant forall j :: 0 <= j < i ==>
        cR[j] == Count(mR, unique[j]) && cU[j] == Count(mU, unique[j]) && cA[j] == Count(mA, unique[j])
    {
      var id := unique[i];
      cR := cR + [if id in mR then mR[id] else 0];
      cU := cU + [if id in mU then mU[id] else 0];
      cA := cA + [if id in mA then mA[id] else 0];
      i := i + 1;
    }
    t := Allelic(unique, cR, cU, cA);
    CountedKeys(mU, ksU);
    CountedKeys(mR, ksR);
    CountedKeys(mA, ksA);
  }

  /** The non-allelic result: the keys of junctionsU in map order with their counts. */
  method AssemblePlain(mU: Counts, ghost ks: seq<string>) returns (t: JunctionTable)
    requires mU == BumpAll(map[], ks)
    ensures PlainTable(t, ks)
  {
    var ids := InsertKeys([], mU.Keys);
    var counts := [];
    var i := 0;
    while i < |ids|
      invariant 0 <= i <= |ids|
      invariant |counts| == i
      invariant forall j :: 0 <= j < i ==> counts[j] == Count(mU, ids[j])
    {
      counts := counts + [mU[ids[i]]];
      i := i + 1;
    }
    t := Plain(ids, counts);
    CountedKeys(mU, ks);
  }

  /** count_junctions: check the MAPQ range, run the callback over every
      record of every region, and build the result table. */
  method CountJunctions(regions: seq<Region>, allelic: bool, includeSecondary: bool,
                        mapqMin: int, mapqMax: int) returns (r: Result<JunctionTable>)
    ensures !(0 <= mapqMin <= 255 && 0 <= mapqMax <= 255 && mapqMin <= mapqMax) ==> r.Err?
    ensures 0 <= mapqMin <= mapqMax <= 255 ==>
      (r.Err? <==> allelic && !Routable(regions, allelic, !includeSecondary, mapqMin, mapqMax))
    ensures r.Ok? ==> 0 <= mapqMin <= mapqMax <= 255
    ensures r.Ok? && !allelic ==>
      PlainTable(r.value, AllIds(regions, allelic, !includeSecondary, mapqMin, mapqMax, Unknown))
    ensures r.Ok? && allelic ==>
      AllelicTable(r.value,
        AllIds(regions, allelic, !includeSecondary, mapqMin, mapqMax, Unknown),
        AllIds(regions, allelic, !includeSecondary, mapqMin, mapqMax, Reference),
        AllIds(regions, allelic, !includeSecondary, mapqMin, mapqMax, Alternative))
  {
    var err := MapqError(mapqMin, mapqMax);
    if err.Some? {
      return Err(err.value);
    }
    r := Tabulate(regions, allelic, !includeSecondary, mapqMin, mapqMax);
  }

  /** The argument checks on the MAPQ range, in the order they are made. */
  function MapqError(mapqMin: int, mapqMax: int): (e: Option<string>)
    ensures e.None? <==> 0 <= mapqMin <= mapqMax <= 255
  {
    if mapqMin < 0 || mapqMin > 255 then
      Some("'mapqMin' must be of type integer(1) and have a value between 0 and 255")
    else if mapqMax < 0 || mapqMax > 255 then
      Some("'mapqMax' must be of type integer(1) and have a value between 0 and 255")
    else if mapqMin > mapqMax then
      Some("'mapqMin' must not be greater than 'mapqMax'")
    else None
  }

  /** The counting and assembly part of count_junctions, once the MAPQ
      range is known to be valid. */
  method Tabulate(regions: seq<Region>, allelic: bool, skip: bool, mapqMin: Byte, mapqMax: Byte)
    returns (r: Result<JunctionTable>)
    ensures r.Err? <==> allelic && !Routable(regions, allelic, skip, mapqMin, mapqMax)
    ensures r.Ok? && !allelic ==> PlainTable(r.value, AllIds(regions, allelic, skip, mapqMin, mapqMax, Unknown))
    ensures r.Ok? && allelic ==>
      AllelicTable(r.value,
        AllIds(regions, allelic, skip, mapqMin, mapqMax, Unknown),
        AllIds(regions, allelic, skip, mapqMin, mapqMax, Reference),
        AllIds(regions, allelic, skip, mapqMin, mapqMax, Alternative))
  {
    var counter := new JunctionCounter(allelic, skip, mapqMin, mapqMax);
    var o := counter.FetchAll(regions);
    if o.Fail? {
      NonAllelicRoutable(regions, skip, mapqMin, mapqMax);
      return Err(o.msg);
    }
    ghost var ksU := AllIds(regions, allelic, skip, mapqMin, mapqMax, Unknown);
    ghost var ksR := AllIds(regions, allelic, skip, mapqMin, mapqMax, Reference);
    ghost var ksA := AllIds(regions, allelic, skip, mapqMin, mapqMax, Alternative);
    assert counter.junctionsU == BumpAll(map[], ksU) by { assert counter.Junctions(Unknown) == counter.junctionsU; }
    assert counter.junctionsR == BumpAll(map[], ksR) by { assert counter.Junctions(Reference) == counter.junctionsR; }
    assert counter.junctionsA == BumpAll(map[], ksA) by { assert counter.Junctions(Alternative) == counter.junctionsA; }
    var t;
    if allelic {
      t := AssembleAllelic(counter.junctionsU, counter.junctionsR, counter.junctionsA, ksU, ksR, ksA);
    } else {
      NonAllelicRoutable(regions, skip, mapqMin, mapqMax);
      t := AssemblePlain(counter.junctionsU, ksU);
    }
    return Ok(t);
  }

  /** Without allele mode every record is routed to junctionsU. */
  lemma NonAllelicRoutable(regions: seq<Region>, skipSecondary: bool, mapqMin: Byte, mapqMax: Byte)
    ensures Routable(regions, false, skipSecondary, mapqMin, mapqMax)
  {
  }

  /** With every record carrying a valid tag, the allele-stratified counts of
      each key add up to the count obtained without allele mode. */
  lemma {:induction false} AllelicSumsToPlain(regions: seq<Region>, skipSecondary: bool, mapqMin: Byte, mapqMax: Byte)
    requires Routable(regions, true, skipSecondary, mapqMin, mapqMax)
    ensures multiset(AllIds(regions, true, skipSecondary, mapqMin, mapqMax, Unknown))
          + multiset(AllIds(regions, true, skipSecondary, mapqMin, mapqMax, Reference))
          + multiset(AllIds(regions, true, skipSecondary, mapqMin, mapqMax, Alternative))
         == multiset(AllIds(regions, false, skipSecondary, mapqMin, mapqMax, Unknown))
  {
    if |regions| > 0 {
      var n := |regions| - 1;
      var g := regions[n];
      assert Routable(regions[..n], true, skipSecondary, mapqMin, mapqMax) by {
        forall i | 0 <= i < n ensures HitsRoutable(regions[..n][i].hits, true, skipSecondary, mapqMin, mapqMax) {
          assert regions[..n][i] == regions[i];
        }
      }
      AllelicSumsToPlain(regions[..n], skipSecondary, mapqMin, mapqMax);
      assert HitsRoutable(g.hits, true, skipSecondary, mapqMin, mapqMax);
      RoutedSumsToPlain(g.tname, g.hits, skipSecondary, mapqMin, mapqMax);
    }
  }

  lemma {:induction false} RoutedSumsToPlain(tname: string, hits: seq<Record>, skipSecondary: bool, mapqMin: Byte, mapqMax: Byte)
    requires HitsRoutable(hits, true, skipSecondary, mapqMin, mapqMax)
    ensures multiset(RoutedIds(tname, hits, true, skipSecondary, mapqMin, mapqMax, Unknown))
          + multiset(RoutedIds(tname, hits, true, skipSecondary, mapqMin, mapqMax, Reference))
          + multiset(RoutedIds(tname, hits, true, skipSecondary, mapqMin, mapqMax, Alternative))
         == multiset(RoutedIds(tname, hits, false, skipSecondary, mapqMin, mapqMax, Unknown))
  {
    if |hits| > 0 {
      var n := |hits| - 1;
      var p := hits[..n];
      assert HitsRoutable(p, true, skipSecondary, mapqMin, mapqMax) by {
        forall k | 0 <= k < |p| ensures p[k] == hits[k] { }
      }
      RoutedSumsToPlain(tname, p, skipSecondary, mapqMin, mapqMax);
      HitSumsToPlain(tname, hits[n], skipSecondary, mapqMin, mapqMax);
      var u, r, a := multiset(RoutedIds(tname, p, true, skipSecondary, mapqMin, mapqMax, Unknown)),
                     multiset(RoutedIds(tname, p, true, skipSecondary, mapqMin, mapqMax, Reference)),
                     multiset(RoutedIds(tname, p, true, skipSecondary, mapqMin, mapqMax, Alternative));
      var hu, hr, ha := multiset(HitIds(tname, hits[n], true, skipSecondary, mapqMin, mapqMax, Unknown)),
                        multiset(HitIds(tname, hits[n], true, skipSecondary, mapqMin, mapqMax, Reference)),
                        multiset(HitIds(tname, hits[n], true, skipSecondary, mapqMin, mapqMax, Alternative));
      RoutedSnoc(tname, hits, true, skipSecondary, mapqMin, mapqMax, Unknown);
      RoutedSnoc(tname, hits, true, skipSecondary, mapqMin, mapqMax, Reference);
      RoutedSnoc(tname, hits, true, skipSecondary, mapqMin, mapqMax, Alternative);
      RoutedSnoc(tname, hits, false, skipSecondary, mapqMin, mapqMax, Unknown);
      SumRegroup(u, r, a, hu, hr, ha);
    }
  }

  /** The keys of a list of records, as a multiset, are those of all but
      the last record plus those of the last. */
  lemma RoutedSnoc(tname: string, hits: seq<Record>, allelic: bool, skipSecondary: bool,
                   mapqMin: Byte, mapqMax: Byte, a: Allele)
    requires |hits| > 0
    ensures multiset(RoutedIds(tname, hits, allelic, skipSecondary, mapqMin, mapqMax, a))
         == multiset(RoutedIds(tname, hits[..|hits| - 1], allelic, skipSecondary, mapqMin, mapqMax, a))
          + multiset(HitIds(tname, hits[|hits| - 1], allelic, skipSecondary, mapqMin, mapqMax, a))
  {
    var p := RoutedIds(tname, hits[..|hits| - 1], allelic, skipSecondary, mapqMin, mapqMax, a);
    var q := HitIds(tname, hits[|hits| - 1], allelic, skipSecondary, mapqMin, mapqMax, a);
    assert RoutedIds(tname, hits, allelic, skipSecondary, mapqMin, mapqMax, a) == p + q;
  }

  /** Removing element i before the last one, then the last one, is
      removing the last one, then element i. */
  lemma DropBeforeLast<T>(s: seq<T>, i: nat)
    requires i < |s| - 1
    ensures var z := s[..i] + s[i + 1..];
      |z| == |s| - 1 && z[..|z| - 1] == s[..|s| - 1][..i] + s[..|s| - 1][i + 1..]
      && z[|z| - 1] == s[|s| - 1] && s[..|s| - 1][i] == s[i]
  {
  }

  /** Dropping the last record of hits1 and a matching record of hits2
      keeps the two batches permutations of each other. */
  lemma DropMatching(hits1: seq<Record>, hits2: seq<Record>, i: nat)
    requires multiset(hits1) == multiset(hits2) && |hits1| > 0
    requires i < |hits2| && hits2[i] == hits1[|hits1| - 1]
    ensures multiset(hits1[..|hits1| - 1]) == multiset(hits2[..i] + hits2[i + 1..])
  {
    var p, x := hits1[..|hits1| - 1], hits1[|hits1| - 1];
    var l, r := hits2[..i], hits2[i + 1..];
    assert hits1 == p + [x];
    assert hits2 == l + [x] + r;
    assert multiset(l + r) == multiset(l) + multiset(r);
    assert multiset(p) == multiset(hits1) - multiset{x};
    assert multiset(l + r) == multiset(hits2) - multiset{x};
  }

  /** The keys of a batch are those of the batch without record i, plus
      the keys of record i. */
  lemma {:induction false} RoutedIdsPick(tname: string, hits: seq<Record>, i: nat, allelic: bool,
                                         skipSecondary: bool, mapqMin: Byte, mapqMax: Byte, a: Allele)
    requires i < |hits|
    ensures multiset(RoutedIds(tname, hits, allelic, skipSecondary, mapqMin, mapqMax, a))
         == multiset(RoutedIds(tname, hits[..i] + hits[i + 1..], allelic, skipSecondary, mapqMin, mapqMax, a))
          + multiset(HitIds(tname, hits[i], allelic, skipSecondary, mapqMin, mapqMax, a))
    decreases |hits|
  {
    var n := |hits|;
    RoutedSnoc(tname, hits, allelic, skipSecondary, mapqMin, mapqMax, a);
    if i == n - 1 {
      assert hits[..i] + hits[i + 1..] == hits[..n - 1];
    } else {
      var q := hits[..n - 1];
      var z := hits[..i] + hits[i + 1..];
      DropBeforeLast(hits, i);
      RoutedIdsPick(tname, q, i, allelic, skipSecondary, mapqMin, mapqMax, a);
      RoutedSnoc(tname, z, allelic, skipSecondary, mapqMin, mapqMax, a);
      var rest := multiset(RoutedIds(tname, q[..i] + q[i + 1..], allelic, skipSecondary, mapqMin, mapqMax, a));
      var last := multiset(HitIds(tname, hits[n - 1], allelic, skipSecondary, mapqMin, mapqMax, a));
      var picked := multiset(HitIds(tname, hits[i], allelic, skipSecondary, mapqMin, mapqMax, a));
      assert (rest + picked) + last == (rest + last) + picked;
    }
  }

  /** Reordering the records of a region reorders their keys and no more. */
  lemma {:induction false} RoutedIdsPermutation(tname: string, hits1: seq<Record>, hits2: seq<Record>, allelic: bool,
                                                skipSecondary: bool, mapqMin: Byte, mapqMax: Byte, a: Allele)
    requires multiset(hits1) == multiset(hits2)
    ensures multiset(RoutedIds(tname, hits1, allelic, skipSecondary, mapqMin, mapqMax, a))
         == multiset(RoutedIds(tname, hits2, allelic, skipSecondary, mapqMin, mapqMax, a))
    decreases |hits1|
  {
    if |hits1| > 0 {
      var x := hits1[|hits1| - 1];
      assert x in multiset(hits2);
      var i :| 0 <= i < |hits2| && hits2[i] == x;
      DropMatching(hits1, hits2, i);
      RoutedIdsPermutation(tname, hits1[..|hits1| - 1], hits2[..i] + hits2[i + 1..], allelic, skipSecondary, mapqMin, mapqMax, a);
      RoutedIdsPick(tname, hits2, i, allelic, skipSecondary, mapqMin, mapqMax, a);
      RoutedSnoc(tname, hits1, allelic, skipSecondary, mapqMin, mapqMax, a);
    } else {
      assert hits2 == [];
    }
  }

  /** The maps a region's records leave behind do not depend on the order
      bam_fetch delivers them in. */
  lemma RecordOrderInvariant(m: Counts, tname: string, hits1: seq<Record>, hits2: seq<Record>, allelic: bool,
                             skipSecondary: bool, mapqMin: Byte, mapqMax: Byte, a: Allele)
    requires multiset(hits1) == multiset(hits2)
    ensures BumpAll(m, RoutedIds(tname, hits1, allelic, skipSecondary, mapqMin, mapqMax, a))
         == BumpAll(m, RoutedIds(tname, hits2, allelic, skipSecondary, mapqMin, mapqMax, a))
  {
    RoutedIdsPermutation(tname, hits1, hits2, allelic, skipSecondary, mapqMin, mapqMax, a);
    BumpAllOrderInvariant(m, RoutedIds(tname, hits1, allelic, skipSecondary, mapqMin, mapqMax, a),
                          RoutedIds(tname, hits2, allelic, skipSecondary, mapqMin, mapqMax, a));
  }

  lemma SumRegroup(u: multiset<string>, r: multiset<string>, a: multiset<string>,
                   hu: multiset<string>, hr: multiset<string>, ha: multiset<string>)
    ensures (u + hu) + (r + hr) + (a + ha) == (u + r + a) + (hu + hr + ha)
  {
  }

  /** One record: its keys go to exactly one of the three maps, the one its
      tag names, or to none when it is filtered out. */
  lemma HitSumsToPlain(tname: string, h: Record, skipSecondary: bool, mapqMin: Byte, mapqMax: Byte)
    requires Passes(h, mapqMin, mapqMax, skipSecondary) ==> Route(true, h.xv).Some?
    ensures multiset(HitIds(tname, h, true, skipSecondary, mapqMin, mapqMax, Unknown))
          + multiset(HitIds(tname, h, true, skipSecondary, mapqMin, mapqMax, Reference))
          + multiset(HitIds(tname, h, true, skipSecondary, mapqMin, mapqMax, Alternative))
         == multiset(HitIds(tname, h, false, skipSecondary, mapqMin, mapqMax, Unknown))
  {
    if Passes(h, mapqMin, mapqMax, skipSecondary) {
      assert Route(false, h.xv) == Some(Unknown);
      var a := Route(true, h.xv).value;
      assert HitIds(tname, h, true, skipSecondary, mapqMin, mapqMax, a)
          == HitIds(tname, h, false, skipSecondary, mapqMin, mapqMax, Unknown);
    }
  }
}
