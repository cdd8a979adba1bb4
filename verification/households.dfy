/** The household table the dashboard reads, reduced to the columns its logic uses,
    and a few facts about subsequences shared by the other modules. */
module Households {

  datatype Option<T> = None | Some(value: T)

  /** One row of the energy table. `id` is the Household_ID as it is rendered
      inside a message; `energy` is Monthly_Energy_Consumption_kWh and `ev` is
      EV_Charging (0 or 1 in the data, but any integer is accepted). */
  datatype Record = Record(id: string, region: string, energy: int, ev: int)

  /** `a` is obtained from `b` by deleting elements, the rest kept in order. */
  predicate IsSubsequence<T(==)>(a: seq<T>, b: seq<T>)
  {
    if a == [] then true
    else if b == [] then false
    else (a[0] == b[0] && IsSubsequence(a[1..], b[1..])) || IsSubsequence(a, b[1..])
  }

  lemma {:induction false} SubsequenceReflexive<T>(a: seq<T>)
    ensures IsSubsequence(a, a)
  {
    if a != [] {
      SubsequenceReflexive(a[1..]);
    }
  }

  /** Putting the same elements in front of both sides keeps a subsequence. */
  lemma {:induction false} SubsequencePrepend<T>(p: seq<T>, a: seq<T>, b: seq<T>)
    requires IsSubsequence(a, b)
    ensures IsSubsequence(p + a, p + b)
  {
    if p != [] {
      SubsequencePrepend(p[1..], a, b);
      assert (p + a)[1..] == p[1..] + a;
      assert (p + b)[1..] == p[1..] + b;
    } else {
      assert p + a == a && p + b == b;
    }
  }

  /** Elements added in front of the larger side only keep a subsequence. */
  lemma {:induction false} SubsequenceExtend<T>(p: seq<T>, a: seq<T>, b: seq<T>)
    requires IsSubsequence(a, b)
    ensures IsSubsequence(a, p + b)
  {
    if p != [] {
      SubsequenceExtend(p[1..], a, b);
      assert (p + b)[1..] == p[1..] + b;
      if a != [] {
        assert IsSubsequence(a, (p + b)[1..]);
      }
    } else {
      assert p + b == b;
    }
  }

  /** A subsequence is never longer than the sequence it is taken from. */
  lemma {:induction false} SubsequenceLength<T>(a: seq<T>, b: seq<T>)
    requires IsSubsequence(a, b)
    ensures |a| <= |b|
  {
    if a != [] {
      if a[0] == b[0] && IsSubsequence(a[1..], b[1..]) {
        SubsequenceLength(a[1..], b[1..]);
      } else {
        SubsequenceLength(a, b[1..]);
      }
    }
  }
}
