/** The sidebar's region selector: the option list and the filter it applies. */
module RegionFilter {
  import opened Households

  /** The option that leaves the table unfiltered. */
  const AllRegions: string := "All"

  /** Python's `<` on `str`: lexicographic by code point, a proper prefix first. */
  predicate Less(a: string, b: string)
    ensures |a| < |b| && b[..|a|] == a ==> Less(a, b)
  {
    if a == [] then b != []
    else b != [] && (a[0] < b[0] || (a[0] == b[0] && Less(a[1..], b[1..])))
  }

  lemma {:induction false} LessIrreflexive(a: string)
    ensures !Less(a, a)
  {
    if a != [] {
      LessIrreflexive(a[1..]);
    }
  }

  lemma {:induction false} LessTransitive(a: string, b: string, c: string)
    requires Less(a, b) && Less(b, c)
    ensures Less(a, c)
  {
    if a != [] && a[0] == b[0] && b[0] == c[0] {
      LessTransitive(a[1..], b[1..], c[1..]);
    }
  }

  lemma {:induction false} LessTotal(a: string, b: string)
    ensures a == b || Less(a, b) || Less(b, a)
  {
    if a != [] && b != [] && a[0] == b[0] {
      LessTotal(a[1..], b[1..]);
      if a[1..] == b[1..] {
        assert a == [a[0]] + a[1..] && b == [b[0]] + b[1..];
      }
    }
  }

  /** Every element is below every later one; in particular no element repeats. */
  predicate StrictlyIncreasing(s: seq<string>)
  {
    forall i, j :: 0 <= i < j < |s| ==> Less(s[i], s[j])
  }

  /** Adds `x` to a strictly increasing list, unless it is already there. */
  function Insert(s: seq<string>, x: string): (r: seq<string>)
    requires StrictlyIncreasing(s)
    ensures StrictlyIncreasing(r)
    ensures forall y :: y in r <==> y in s || y == x
  {
    if s == [] then [x]
    else if x == s[0] then s
    else if Less(x, s[0]) then
      assert forall j :: 0 < j < |s| ==> Less(x, s[j]) by {
        forall j | 0 < j < |s| ensures Less(x, s[j]) {
          LessTransitive(x, s[0], s[j]);
        }
      }
      [x] + s
    else
      LessTotal(x, s[0]);
      var t := Insert(s[1..], x);
      assert forall y :: y in t ==> Less(s[0], y);
      [s[0]] + t
  }

  /** `sorted(set(xs))`: the distinct values of `xs`, in increasing order. */
  function SortedDistinct(xs: seq<string>): (r: seq<string>)
    ensures StrictlyIncreasing(r)
    ensures forall y :: y in r <==> y in xs
  {
    if xs == [] then [] else Insert(SortedDistinct(xs[1..]), xs[0])
  }

  /** A strictly increasing list is determined by its elements, so any
      implementation of sort-after-unique yields the same option list. */
  lemma {:induction false} IncreasingIsUnique(s: seq<string>, t: seq<string>)
    requires StrictlyIncreasing(s) && StrictlyIncreasing(t)
    requires forall y :: y in s <==> y in t
    ensures s == t
  {
    assert s == [] <==> t == [] by {
      if s != [] { assert s[0] in t; }
      if t != [] { assert t[0] in s; }
    }
    if s != [] {
      assert s[0] in t && t[0] in s;
      LessIrreflexive(s[0]);
      LessIrreflexive(t[0]);
      if s[0] != t[0] {
        var j :| 0 <= j < |s| && s[j] == t[0];
        var k :| 0 <= k < |t| && t[k] == s[0];
        assert Less(s[0], t[0]);
        assert Less(t[0], s[0]);
        LessTransitive(s[0], t[0], s[0]);
        assert false;
      }
      forall y ensures y in s[1..] <==> y in t[1..] {
        if y in s[1..] {
          var j :| 1 <= j < |s| && s[j] == y;
          assert Less(s[0], y);
        }
        if y in t[1..] {
          var j :| 1 <= j < |t| && t[j] == y;
          assert Less(t[0], y);
        }
        assert y in s <==> y == s[0] || y in s[1..];
        assert y in t <==> y == t[0] || y in t[1..];
      }
      IncreasingIsUnique(s[1..], t[1..]);
      assert s == [s[0]] + s[1..] && t == [t[0]] + t[1..];
    }
  }

  /** The Region column of the table, row by row. */
  function Regions(rows: seq<Record>): (r: seq<string>)
    ensures |r| == |rows|
    ensures forall i :: 0 <= i < |rows| ==> r[i] == rows[i].region
  {
    seq(|rows|, i requires 0 <= i < |rows| => rows[i].region)
  }

  /** The choices offered by the region selector: "All", then the distinct
      regions of the table in increasing order. */
  function RegionOptions(rows: seq<Record>): (opts: seq<string>)
    ensures |opts| >= 1 && opts[0] == AllRegions
    ensures StrictlyIncreasing(opts[1..])
    ensures forall x :: x in opts[1..] <==> exists i :: 0 <= i < |rows| && rows[i].region == x
  {
    var regions := Regions(rows);
    var opts := [AllRegions] + SortedDistinct(regions);
    assert opts[1..] == SortedDistinct(regions);
    forall x ensures x in regions <==> exists i :: 0 <= i < |rows| && rows[i].region == x {
      if x in regions {
        var i :| 0 <= i < |regions| && regions[i] == x;
        assert rows[i].region == x;
      }
    }
    opts
  }

  /** The rows whose Region equals `region`, in table order (a boolean mask). */
  function Select(rows: seq<Record>, region: string): (r: seq<Record>)
    ensures IsSubsequence(r, rows)
    ensures forall x :: multiset(r)[x] == if x.region == region then multiset(rows)[x] else 0
  {
    if rows == [] then []
    else
      var t := Select(rows[1..], region);
      assert rows == [rows[0]] + rows[1..];
      if rows[0].region == region then
        assert ([rows[0]] + t)[1..] == t;
        [rows[0]] + t
      else
        t
  }

  /** What the table becomes once the selector holds `choice`. */
  function Filter(rows: seq<Record>, choice: string): (r: seq<Record>)
    ensures IsSubsequence(r, rows)
    ensures choice == AllRegions ==> r == rows
    ensures choice != AllRegions ==>
      forall x :: multiset(r)[x] == if x.region == choice then multiset(rows)[x] else 0
  {
    if choice == AllRegions then
      SubsequenceReflexive(rows);
      rows
    else Select(rows, choice)
  }

  /** A filtered row is a row of the table, and in the chosen region unless
      the choice is "All". */
  lemma FilterMembership(rows: seq<Record>, choice: string, x: Record)
    ensures x in Filter(rows, choice) <==> x in rows && (choice == AllRegions || x.region == choice)
  {
    var r := Filter(rows, choice);
    assert x in r <==> multiset(r)[x] > 0;
    assert x in rows <==> multiset(rows)[x] > 0;
  }

  /** Every option the selector offers keeps at least one row of a non-empty
      table, so the selection is never empty unless the table is. */
  lemma OptionSelectsSomething(rows: seq<Record>, choice: string)
    requires choice in RegionOptions(rows)
    requires rows != []
    ensures Filter(rows, choice) != []
  {
    var opts := RegionOptions(rows);
    if choice != AllRegions {
      var k :| 0 <= k < |opts| && opts[k] == choice;
      assert choice in opts[1..] by {
        assert k != 0;
        assert opts[1..][k - 1] == choice;
      }
      var i :| 0 <= i < |rows| && rows[i].region == choice;
      FilterMembership(rows, choice, rows[i]);
    }
  }
}
