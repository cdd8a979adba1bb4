/** The "Download Recommendations" button: the messages joined by newlines,
    offered as recommendations.txt only when there is at least one. */
module Download {
  import opened Households
  import opened Recommendations

  const Newline: char := '\n'

  /** Python's `"\n".join(lines)`: it starts with the first line and ends
      with the last. */
  function Join(lines: seq<string>): (j: string)
    ensures lines != [] ==> |lines[0]| <= |j| && j[..|lines[0]|] == lines[0]
    ensures lines != [] ==> EndsWith(j, lines[|lines| - 1])
  {
    if lines == [] then ""
    else if |lines| == 1 then lines[0]
    else lines[0] + [Newline] + Join(lines[1..])
  }

  function NewlineCount(s: string): (n: nat)
    ensures n == 0 <==> Newline !in s
  {
    if s == [] then 0
    else (if s[0] == Newline then 1 else 0) + NewlineCount(s[1..])
  }

  /** Python's `text.split("\n")`: one piece more than there are newlines,
      so "" splits into [""]. */
  function Split(s: string): (pieces: seq<string>)
    ensures |pieces| >= 1
  {
    if s == [] then [""]
    else
      var t := Split(s[1..]);
      if s[0] == Newline then [""] + t
      else [[s[0]] + t[0]] + t[1..]
  }

  /** The payload of the download button, `None` when the button is not shown. */
  function Payload(recommendations: seq<string>): (p: Option<string>)
    ensures p.Some? <==> recommendations != []
  {
    if recommendations == [] then None else Some(Join(recommendations))
  }

  /** No piece of a split holds a newline. */
  lemma {:induction false} SplitPiecesAreLines(s: string)
    ensures forall k :: 0 <= k < |Split(s)| ==> Newline !in Split(s)[k]
  {
    if s != [] {
      SplitPiecesAreLines(s[1..]);
      var t := Split(s[1..]);
      if s[0] != Newline {
        assert Newline !in [s[0]] + t[0];
      }
    }
  }

  /** Splitting yields one piece more than there are newlines. */
  lemma {:induction false} SplitLength(s: string)
    ensures |Split(s)| == NewlineCount(s) + 1
  {
    if s != [] {
      SplitLength(s[1..]);
    }
  }

  lemma {:induction false} NewlineCountAppend(a: string, b: string)
    ensures NewlineCount(a + b) == NewlineCount(a) + NewlineCount(b)
  {
    if a == [] {
      assert a + b == b;
    } else {
      assert (a + b)[1..] == a[1..] + b;
      NewlineCountAppend(a[1..], b);
    }
  }

  /** A newline-free text splits into itself. */
  lemma {:induction false} SplitLine(a: string)
    requires Newline !in a
    ensures Split(a) == [a]
  {
    if a != [] {
      SplitLine(a[1..]);
      assert a == [a[0]] + a[1..];
    }
  }

  /** A newline-free text followed by a newline is split off as the first piece. */
  lemma {:induction false} SplitFirstLine(a: string, b: string)
    requires Newline !in a
    ensures Split(a + [Newline] + b) == [a] + Split(b)
  {
    var s := a + [Newline] + b;
    if a == [] {
      assert s[1..] == b;
    } else {
      assert s[1..] == a[1..] + [Newline] + b;
      SplitFirstLine(a[1..], b);
      assert a == [a[0]] + a[1..];
    }
  }

  /** Joining and splitting again gives back the lines, provided there is at
      least one line and no line holds a newline. */
  lemma {:induction false} SplitJoin(lines: seq<string>)
    requires lines != []
    requires forall k :: 0 <= k < |lines| ==> Newline !in lines[k]
    ensures Split(Join(lines)) == lines
  {
    if |lines| == 1 {
      SplitLine(lines[0]);
    } else {
      SplitFirstLine(lines[0], Join(lines[1..]));
      SplitJoin(lines[1..]);
      assert lines == [lines[0]] + lines[1..];
    }
  }

  /** The newlines held inside the lines themselves. */
  function LineNewlines(lines: seq<string>): nat
  {
    if lines == [] then 0 else NewlineCount(lines[0]) + LineNewlines(lines[1..])
  }

  lemma {:induction false} LineNewlinesAtLeast(lines: seq<string>, k: int)
    requires 0 <= k < |lines|
    ensures LineNewlines(lines) >= NewlineCount(lines[k])
  {
    if k > 0 {
      LineNewlinesAtLeast(lines[1..], k - 1);
    }
  }

  /** Joining adds exactly one newline between each two lines and keeps the
      lines' own newlines. */
  lemma {:induction false} JoinNewlines(lines: seq<string>)
    requires lines != []
    ensures NewlineCount(Join(lines)) == |lines| - 1 + LineNewlines(lines)
  {
    if |lines| > 1 {
      NewlineCountAppend(lines[0] + [Newline], Join(lines[1..]));
      NewlineCountAppend(lines[0], [Newline]);
      assert NewlineCount([Newline]) == 1;
      JoinNewlines(lines[1..]);
    }
  }

  /** The round trip holds exactly when no line holds a newline. */
  lemma SplitJoinExactly(lines: seq<string>)
    requires lines != []
    ensures Split(Join(lines)) == lines <==> forall k :: 0 <= k < |lines| ==> Newline !in lines[k]
  {
    if forall k :: 0 <= k < |lines| ==> Newline !in lines[k] {
      SplitJoin(lines);
    } else {
      var k :| 0 <= k < |lines| && Newline in lines[k];
      JoinNewlines(lines);
      LineNewlinesAtLeast(lines, k);
      SplitLength(Join(lines));
    }
  }

  lemma HighUsageTextHoldsNoNewline()
    ensures Newline !in HighUsageText
  {
  }

  lemma EvMeterTextHoldsNoNewline()
    ensures Newline !in EvMeterText
  {
  }

  /** The fixed parts of a message hold no newline, so a message holds one
      exactly when the household id does. */
  lemma MessageNewlines(a: Advice)
    ensures Newline in Message(a) <==> Newline in a.id
  {
    assert Newline !in Prefix;
    HighUsageTextHoldsNoNewline();
    EvMeterTextHoldsNoNewline();
  }

  /** No message holds a newline when no household id does. */
  lemma {:induction false} MessagesHoldNoNewline(rows: seq<Record>)
    requires forall i :: 0 <= i < |rows| ==> Newline !in rows[i].id
    ensures forall k :: 0 <= k < |Advise(rows)| ==> Newline !in Messages(Advise(rows))[k]
  {
    if rows != [] {
      MessagesHoldNoNewline(rows[1..]);
      var head := RowAdvice(rows[0]);
      if head != [] {
        MessageNewlines(head[0]);
      }
      var advice := Advise(rows);
      forall k | 0 <= k < |advice| ensures Newline !in Messages(advice)[k] {
        if k >= |head| {
          assert advice[k] == Advise(rows[1..])[k - |head|];
          assert Messages(Advise(rows[1..]))[k - |head|] == Message(advice[k]);
        }
      }
    }
  }

  /** The button's file, split into lines, gives back the list it was made
      from, when that list is non-empty and its lines hold no newline. */
  lemma PayloadRoundTrip(lines: seq<string>)
    requires lines != []
    requires forall k :: 0 <= k < |lines| ==> Newline !in lines[k]
    ensures Payload(lines).Some? && Split(Payload(lines).value) == lines
  {
    SplitJoin(lines);
  }
}
