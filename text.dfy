/** The string machinery the junction counter relies on: decimal formatting
    of coordinates (the "%i" conversions of its key format), the byte-wise
    order of std::string, and insertion into a std::set<string>, modelled as
    a strictly increasing sequence. */
module Text {

  /** Decimal digits of a non-negative number. */
  function NatToString(n: nat): string
    decreases n
  {
    if n < 10 then [DigitChar(n)]
    else NatToString(n / 10) + [DigitChar(n % 10)]
  }

  /** The "%i" conversion of a non-negative number: at least one character,
      decimal digits only, no leading zero. */
  lemma {:induction false} NatToStringDigits(n: nat)
    ensures |NatToString(n)| >= 1
    ensures forall i :: 0 <= i < |NatToString(n)| ==> '0' <= NatToString(n)[i] <= '9'
    ensures |NatToString(n)| > 1 ==> NatToString(n)[0] != '0'
    decreases n
  {
    if n >= 10 {
      NatToStringDigits(n / 10);
    }
  }

  /** Different numbers print differently: the "%i" conversion of a
      non-negative number is injective. */
  lemma {:induction false} NatToStringInjective(m: nat, n: nat)
    requires NatToString(m) == NatToString(n)
    ensures m == n
    decreases m
  {
    var a, b := NatToString(m), NatToString(n);
    if m >= 10 {
      NatToStringDigits(m / 10);
    }
    if n >= 10 {
      NatToStringDigits(n / 10);
    }
    if m >= 10 && n >= 10 {
      assert a[..|a| - 1] == NatToString(m / 10) && b[..|b| - 1] == NatToString(n / 10);
      NatToStringInjective(m / 10, n / 10);
      assert DigitChar(m % 10) == a[|a| - 1] == b[|b| - 1] == DigitChar(n % 10);
    }
  }

  /** A decimal rendering holds no ':'. */
  lemma NoColon(n: nat)
    ensures ':' !in NatToString(n)
  {
    NatToStringDigits(n);
  }

  /** Splitting at the first ':' is unambiguous when the fields before it
      hold no ':'. */
  lemma SplitAtColon(u1: string, v1: string, u2: string, v2: string)
    requires ':' !in u1 && ':' !in u2
    requires u1 + [':'] + v1 == u2 + [':'] + v2
    ensures u1 == u2 && v1 == v2
  {
    var w := u1 + [':'] + v1;
    // The first ':' of w sits at index |u1| and at index |u2|.
    if |u1| < |u2| {
      ColonFree(u2, v2, |u1|);
      assert false;
    } else if |u2| < |u1| {
      ColonFree(u1, v1, |u2|);
      assert false;
    }
    assert u1 == w[..|u1|] == u2;
    assert v1 == w[|u1| + 1..] == v2;
  }

  lemma ColonFree(u: string, v: string, k: nat)
    requires ':' !in u && k < |u|
    ensures (u + [':'] + v)[k] != ':' && (u + [':'] + v)[|u|] == ':'
  {
    assert (u + [':'] + v)[k] == u[k];
  }

  /** The "%d" conversion of an integer: a minus sign before the digits of
      a negative number. */
  function IntToString(n: int): string {
    if n < 0 then "-" + NatToString(-n) else NatToString(n)
  }

  function DigitChar(d: nat): (c: char)
    requires d < 10
    ensures '0' <= c <= '9'
  {
    (d + '0' as int) as char
  }

  /** Strict lexicographic order on strings, character by character, a
      proper prefix first (the order of std::string::compare). */
  predicate Less(a: string, b: string)
    decreases |a|
  {
    if |a| == 0 then |b| > 0
    else if |b| == 0 then false
    else a[0] < b[0] || (a[0] == b[0] && Less(a[1..], b[1..]))
  }

  lemma {:induction false} LessIrreflexive(a: string)
    ensures !Less(a, a)
    decreases |a|
  {
    if |a| > 0 {
      LessIrreflexive(a[1..]);
    }
  }

  lemma {:induction false} LessTransitive(a: string, b: string, c: string)
    requires Less(a, b) && Less(b, c)
    ensures Less(a, c)
    decreases |a|
  {
    if |a| > 0 && |b| > 0 && |c| > 0 && a[0] == b[0] == c[0] {
      LessTransitive(a[1..], b[1..], c[1..]);
    }
  }

  lemma {:induction false} LessTotal(a: string, b: string)
    requires a != b
    ensures Less(a, b) || Less(b, a)
    decreases |a|
  {
    if |a| > 0 && |b| > 0 && a[0] == b[0] {
      assert a == [a[0]] + a[1..] && b == [b[0]] + b[1..];
      LessTotal(a[1..], b[1..]);
    }
  }

  /** Strictly increasing, hence free of duplicates: the in-order traversal
      of a std::set or of the keys of a std::map. */
  predicate Sorted(s: seq<string>) {
    forall i, j :: 0 <= i < j < |s| ==> Less(s[i], s[j])
  }

  lemma SortedDistinct(s: seq<string>, i: nat, j: nat)
    requires Sorted(s) && i < |s| && j < |s| && i != j
    ensures s[i] != s[j]
  {
    if i < j { LessIrreflexive(s[i]); } else { LessIrreflexive(s[j]); }
  }

  /** std::set<string>::insert: the element is added once, at its place in
      the order; inserting an element already present changes nothing. */
  function Insert(s: seq<string>, k: string): (r: seq<string>)
    requires Sorted(s)
    ensures Sorted(r)
    ensures forall x :: x in r <==> x in s || x == k
    ensures k in s ==> r == s
    ensures k !in s ==> |r| == |s| + 1
    decreases |s|
  {
    if s == [] then [k]
    else if k == s[0] then s
    else if Less(k, s[0]) then
      assert k !in s by {
        forall j | 0 <= j < |s| ensures s[j] != k {
          if j > 0 && s[j] == k {
            LessTransitive(s[0], k, s[0]);
            LessIrreflexive(s[0]);
          }
        }
      }
      InsertBefore(s, k)
    else
      LessTotal(k, s[0]);
      var t := Insert(s[1..], k);
      assert forall j :: 0 <= j < |t| ==> Less(s[0], t[j]) by {
        forall j | 0 <= j < |t| ensures Less(s[0], t[j]) {
          if t[j] != k {
            assert t[j] in s[1..];
            var m :| 0 <= m < |s| - 1 && s[1..][m] == t[j];
            assert s[m + 1] == t[j];
          }
        }
      }
      [s[0]] + t
  }

  function InsertBefore(s: seq<string>, k: string): (r: seq<string>)
    requires Sorted(s) && |s| > 0 && Less(k, s[0])
    ensures r == [k] + s && Sorted(r)
  {
    forall j | 0 <= j < |s| ensures Less(k, s[j]) {
      if j > 0 { LessTransitive(k, s[0], s[j]); }
    }
    [k] + s
  }
}
