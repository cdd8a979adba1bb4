/** The two key metrics shown above the charts: total and mean monthly energy
    consumption over the selected rows. */
module Metrics {
  import opened Households
  import RegionFilter

  /** Sum of the Monthly_Energy_Consumption_kWh column (`.sum()`, 0 on no rows). */
  function Total(rows: seq<Record>): (t: int)
    ensures rows == [] ==> t == 0
    ensures |rows| == 1 ==> t == rows[0].energy
  {
    if rows == [] then 0 else rows[0].energy + Total(rows[1..])
  }

  /** The total of two tables stacked together is the sum of their totals. */
  lemma {:induction false} TotalAppend(a: seq<Record>, b: seq<Record>)
    ensures Total(a + b) == Total(a) + Total(b)
  {
    if a == [] {
      assert a + b == b;
    } else {
      assert (a + b)[1..] == a[1..] + b;
      TotalAppend(a[1..], b);
    }
  }

  predicate NonNegativeEnergy(rows: seq<Record>)
  {
    forall i :: 0 <= i < |rows| ==> rows[i].energy >= 0
  }

  /** Dropping rows never raises the total when no consumption is negative. */
  lemma {:induction false} TotalOfSubsequence(a: seq<Record>, b: seq<Record>)
    requires IsSubsequence(a, b)
    requires NonNegativeEnergy(b)
    ensures Total(a) <= Total(b)
  {
    if b != [] {
      assert NonNegativeEnergy(b[1..]);
      if a != [] && a[0] == b[0] && IsSubsequence(a[1..], b[1..]) {
        TotalOfSubsequence(a[1..], b[1..]);
      } else {
        TotalOfSubsequence(a, b[1..]);
      }
    }
  }

  /** The total over a region is at most the total over the whole table. */
  lemma FilteredTotalBounded(rows: seq<Record>, choice: string)
    requires NonNegativeEnergy(rows)
    ensures Total(RegionFilter.Filter(rows, choice)) <= Total(rows)
  {
    TotalOfSubsequence(RegionFilter.Filter(rows, choice), rows);
  }

  /** The table's total splits into the chosen region's total and the rest's. */
  lemma {:induction false} TotalSplitsByRegion(rows: seq<Record>, region: string)
    ensures Total(rows) == Total(RegionFilter.Select(rows, region)) + Total(Others(rows, region))
  {
    if rows != [] {
      TotalSplitsByRegion(rows[1..], region);
    }
  }

  /** The rows outside `region`, in table order. */
  function Others(rows: seq<Record>, region: string): (r: seq<Record>)
    ensures IsSubsequence(r, rows)
    ensures forall x :: multiset(r)[x] == if x.region == region then 0 else multiset(rows)[x]
  {
    if rows == [] then []
    else
      var t := Others(rows[1..], region);
      assert rows == [rows[0]] + rows[1..];
      if rows[0].region == region then
        t
      else
        assert ([rows[0]] + t)[1..] == t;
        [rows[0]] + t
  }

  /** `.mean()` of the column: `None` stands for the NaN pandas yields on no rows. */
  function Mean(rows: seq<Record>): (m: Option<real>)
    ensures m.Some? <==> rows != []
    ensures m.Some? ==> m.value * (|rows| as real) == Total(rows) as real
  {
    if rows == [] then None else Some(Total(rows) as real / |rows| as real)
  }

  /** The mean lies between the smallest and the largest consumption. */
  lemma MeanWithinRange(rows: seq<Record>, lo: int, hi: int)
    requires rows != []
    requires forall i :: 0 <= i < |rows| ==> lo <= rows[i].energy <= hi
    ensures lo as real <= Mean(rows).value <= hi as real
  {
    var n, total := |rows|, Total(rows);
    TotalBounds(rows, lo, hi);
    QuotientBounds(total, n, lo, hi);
  }

  /** An integer between `n * lo` and `n * hi` divides by `n` into [lo, hi]. */
  lemma QuotientBounds(total: int, n: int, lo: int, hi: int)
    requires n > 0
    requires n * lo <= total <= n * hi
    ensures lo as real <= total as real / n as real <= hi as real
  {
    assert (n * lo) as real == n as real * lo as real;
    assert (n * hi) as real == n as real * hi as real;
  }

  lemma {:induction false} TotalBounds(rows: seq<Record>, lo: int, hi: int)
    requires forall i :: 0 <= i < |rows| ==> lo <= rows[i].energy <= hi
    ensures |rows| * lo <= Total(rows) <= |rows| * hi
  {
    if rows != [] {
      var n := |rows| - 1;
      TotalBounds(rows[1..], lo, hi);
      assert Total(rows) == rows[0].energy + Total(rows[1..]);
      assert |rows| * lo == n * lo + lo && |rows| * hi == n * hi + hi;
    }
  }
}
