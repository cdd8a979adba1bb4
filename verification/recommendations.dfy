/** The "Smart Recommendations" section: a first-match-wins rule per row, and
    the loop that collects the resulting messages in table order. */
module Recommendations {
  import opened Households
  import RegionFilter

  /** Consumption strictly above this many kWh is high usage. */
  const HighUsageThreshold: int := 250

  /** One recommendation: `HighUsage` is shown as a warning, `EvMeter` as info. */
  datatype Advice = HighUsage(id: string) | EvMeter(id: string)

  const Prefix: string := "Household ID "
  const HighUsageText: string :=
    " - \U{26A0} High usage!" + " Recommend switching" + " to solar and LED bulbs."
  const EvMeterText: string :=
    " - \U{1F697} Consider" + " installing a separate" + " EV meter for" + " optimal billing."

  /** The rule applied to one row: high usage first, then EV charging, else nothing. */
  function Classify(r: Record): (a: Option<Advice>)
    ensures a.Some? <==> r.energy > HighUsageThreshold || r.ev == 1
    ensures a.Some? ==> a.value.id == r.id
    ensures a.Some? ==> (a.value.HighUsage? <==> r.energy > HighUsageThreshold)
  {
    if r.energy > HighUsageThreshold then Some(HighUsage(r.id))
    else if r.ev == 1 then Some(EvMeter(r.id))
    else None
  }

  /** What one row adds to the list: its advice, or nothing. */
  function RowAdvice(r: Record): (s: seq<Advice>)
    ensures |s| <= 1
  {
    match Classify(r)
    case None => []
    case Some(a) => [a]
  }

  /** The advice for every row, in table order. */
  function Advise(rows: seq<Record>): (s: seq<Advice>)
    ensures |s| <= |rows|
  {
    if rows == [] then [] else RowAdvice(rows[0]) + Advise(rows[1..])
  }

  /** The text of a recommendation as it is displayed and downloaded. */
  function Message(a: Advice): (m: string)
    ensures |m| > |Prefix| + |a.id|
    ensures m[..|Prefix| + |a.id|] == Prefix + a.id
  {
    match a
    case HighUsage(id) => Prefix + id + HighUsageText
    case EvMeter(id) => Prefix + id + EvMeterText
  }

  /** The text of each recommendation, in order. */
  function Messages(advice: seq<Advice>): (m: seq<string>)
    ensures |m| == |advice|
  {
    seq(|advice|, i requires 0 <= i < |advice| => Message(advice[i]))
  }

  predicate EndsWith(s: string, suffix: string)
  {
    |suffix| <= |s| && s[|s| - |suffix|..] == suffix
  }

  /** Reads a message back into the advice it was made from. */
  function ParseMessage(m: string): Option<Advice>
  {
    if |m| < |Prefix| || m[..|Prefix|] != Prefix then None
    else
      var rest := m[|Prefix|..];
      if EndsWith(rest, HighUsageText) then Some(HighUsage(rest[..|rest| - |HighUsageText|]))
      else if EndsWith(rest, EvMeterText) then Some(EvMeter(rest[..|rest| - |EvMeterText|]))
      else None
  }

  /** Taking a text apart around a known front and a known end. */
  lemma Unframe(front: string, middle: string, end: string)
    ensures (front + middle + end)[..|front|] == front
    ensures (front + middle + end)[|front|..] == middle + end
    ensures EndsWith(middle + end, end)
    ensures (middle + end)[..|middle + end| - |end|] == middle
  {
    assert front + middle + end == front + (middle + end);
  }

  /** Every message names its household and its kind, whatever the id holds. */
  lemma MessageRoundTrip(a: Advice)
    ensures ParseMessage(Message(a)) == Some(a)
  {
    var tail := if a.HighUsage? then HighUsageText else EvMeterText;
    Unframe(Prefix, a.id, tail);
    if a.EvMeter? {
      EvMeterTextIsNotHighUsageText(a.id);
    }
  }

  /** The two texts end in "bulbs." and "billing.", so an EV message never
      reads as a high-usage one. */
  lemma EvMeterTextIsNotHighUsageText(id: string)
    ensures !EndsWith(id + EvMeterText, HighUsageText)
  {
    var s := id + EvMeterText;
    assert s[|s| - 2] == 'g';
    if |HighUsageText| <= |s| {
      assert s[|s| - |HighUsageText|..][|HighUsageText| - 2] == s[|s| - 2];
      assert HighUsageText[|HighUsageText| - 2] == 's';
    }
  }

  /** Different recommendations never share a text. */
  lemma MessageInjective(a: Advice, b: Advice)
    requires Message(a) == Message(b)
    ensures a == b
  {
    MessageRoundTrip(a);
    MessageRoundTrip(b);
  }

  lemma {:induction false} AdviseAppend(a: seq<Record>, b: seq<Record>)
    ensures Advise(a + b) == Advise(a) + Advise(b)
  {
    if a == [] {
      assert a + b == b;
    } else {
      assert (a + b)[1..] == a[1..] + b;
      AdviseAppend(a[1..], b);
    }
  }

  /** Row `i` contributes exactly its own advice, between that of the rows
      before it and that of the rows after it. */
  lemma AdviseAtRow(rows: seq<Record>, i: int)
    requires 0 <= i < |rows|
    ensures Advise(rows) == Advise(rows[..i]) + RowAdvice(rows[i]) + Advise(rows[i + 1..])
  {
    var before, rest := rows[..i], rows[i..];
    assert rows == before + rest;
    AdviseAppend(before, rest);
    assert rest[0] == rows[i] && rest[1..] == rows[i + 1..];
    assert Advise(rest) == RowAdvice(rows[i]) + Advise(rows[i + 1..]);
    var x, y, z := Advise(before), RowAdvice(rows[i]), Advise(rows[i + 1..]);
    assert x + (y + z) == x + y + z;
  }

  /** A recommendation appears for row `i` exactly when the rule fires on it,
      and then it is the rule's advice, tagged with that row's id. */
  lemma AdviseComplete(rows: seq<Record>, i: int)
    requires 0 <= i < |rows|
    ensures Classify(rows[i]).Some? ==> Classify(rows[i]).value in Advise(rows)
  {
    AdviseAtRow(rows, i);
  }

  /** Every recommendation comes from a row on which the rule fired. */
  lemma {:induction false} AdviseSound(rows: seq<Record>, k: int)
    requires 0 <= k < |Advise(rows)|
    ensures exists i :: 0 <= i < |rows| && Classify(rows[i]) == Some(Advise(rows)[k])
  {
    var head := RowAdvice(rows[0]);
    if k < |head| {
      assert Classify(rows[0]) == Some(Advise(rows)[k]);
    } else {
      AdviseSound(rows[1..], k - |head|);
      var i :| 0 <= i < |rows[1..]| && Classify(rows[1..][i]) == Some(Advise(rows[1..])[k - |head|]);
      assert Classify(rows[i + 1]) == Some(Advise(rows)[k]);
    }
  }

  /** The list is empty exactly when the rule fires on no row. */
  lemma AdviseEmptyIff(rows: seq<Record>)
    ensures Advise(rows) == [] <==> forall i :: 0 <= i < |rows| ==> Classify(rows[i]) == None
  {
    if Advise(rows) != [] {
      AdviseSound(rows, 0);
    }
    forall i | 0 <= i < |rows| && Classify(rows[i]) != None ensures Advise(rows) != [] {
      AdviseComplete(rows, i);
    }
  }

  /** Recommendations keep the order of their rows: for rows `i < j` that both
      fire, the advice of `i` sits at an earlier position than that of `j`. */
  lemma AdviseKeepsOrder(rows: seq<Record>, i: int, j: int)
    requires 0 <= i < j < |rows|
    requires Classify(rows[i]).Some? && Classify(rows[j]).Some?
    ensures |Advise(rows[..i])| < |Advise(rows[..j])| < |Advise(rows)|
    ensures Advise(rows)[|Advise(rows[..i])|] == Classify(rows[i]).value
    ensures Advise(rows)[|Advise(rows[..j])|] == Classify(rows[j]).value
  {
    AdviseAtRow(rows, i);
    AdviseAtRow(rows, j);
    assert rows[..j] == rows[..i] + rows[i..j];
    AdviseAppend(rows[..i], rows[i..j]);
    AdviseAtRow(rows[i..j], 0);
    assert rows[i..j][..0] == [];
  }

  /** Restricting the table to one region keeps a subsequence of the
      recommendations made for the whole table. */
  lemma {:induction false} AdviseOfSubsequence(a: seq<Record>, b: seq<Record>)
    requires IsSubsequence(a, b)
    ensures IsSubsequence(Advise(a), Advise(b))
  {
    if a == [] {
    } else if a[0] == b[0] && IsSubsequence(a[1..], b[1..]) {
      AdviseOfSubsequence(a[1..], b[1..]);
      SubsequencePrepend(RowAdvice(a[0]), Advise(a[1..]), Advise(b[1..]));
    } else {
      AdviseOfSubsequence(a, b[1..]);
      SubsequenceExtend(RowAdvice(b[0]), Advise(a), Advise(b[1..]));
    }
  }

  lemma FilteredAdviceIsSubsequence(rows: seq<Record>, choice: string)
    ensures IsSubsequence(Advise(RegionFilter.Filter(rows, choice)), Advise(rows))
  {
    AdviseOfSubsequence(RegionFilter.Filter(rows, choice), rows);
  }

  /** One step of the loop: the messages for `done + [row]` are those for
      `done`, followed by the message the rule gives `row`, if any. */
  lemma {:induction false} MessagesStep(done: seq<Record>, row: Record)
    ensures Messages(Advise(done + [row])) ==
      Messages(Advise(done)) + Messages(RowAdvice(row))
  {
    AdviseAppend(done, [row]);
    assert Advise([row]) == RowAdvice(row) + Advise([]);
    var a, b := Advise(done), RowAdvice(row);
    assert Messages(a + b) == Messages(a) + Messages(b);
  }

  /** The loop of the dashboard: walks the rows in order and appends one
      message for each row the rule fires on. */
  method BuildRecommendations(rows: seq<Record>) returns (recommendations: seq<string>)
    ensures recommendations == Messages(Advise(rows))
  {
    recommendations := [];
    for i := 0 to |rows|
      invariant recommendations == Messages(Advise(rows[..i]))
    {
      var row := rows[i];
      MessagesStep(rows[..i], row);
      assert rows[..i + 1] == rows[..i] + [row];
      if row.energy > HighUsageThreshold {
        var message := Message(HighUsage(row.id));
        assert Messages(RowAdvice(row)) == [message];
        recommendations := recommendations + [message];
      } else if row.ev == 1 {
        var message := Message(EvMeter(row.id));
        assert Messages(RowAdvice(row)) == [message];
        recommendations := recommendations + [message];
      } else {
        assert Messages(RowAdvice(row)) == [];
      }
    }
    assert rows[..|rows|] == rows;
  }
}
